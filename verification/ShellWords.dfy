/** The shell-command splitter of the migration: its lexer against a grammar of pieces. */
module ShellWords {
  import opened Orders
  import opened Sequences

  /** A piece of a command. `Escape(c)` is a backslash and `c`, inside quotes or out. */
  datatype Piece = Bare(c: char) | Escape(c: char) | Open(q: char) | Within(c: char) | Close(q: char)

  /** A command read piece by piece, with the quote left open and whether a lone backslash ends it. */
  datatype Reading = Reading(pieces: seq<Piece>, quote: Option<char>, dangling: bool)

  predicate IsQuote(c: char) {
    c == '\'' || c == '"'
  }

  predicate IsBlank(c: char) {
    c == ' ' || c == '\t' || c == '\n' || c == '\r'
  }

  predicate IsMeta(c: char) {
    c == '&' || c == '|' || c == ';' || c == '>' || c == '<' || c == '`' || c == '$'
  }

  // ---------------------------------------------------------------------
  // The grammar.

  /** Whether a piece may stand where `quote` is open. */
  predicate Fits(p: Piece, quote: Option<char>) {
    match p
    case Escape(_) => true
    case Bare(c) => quote.None? && c != '\\' && !IsQuote(c)
    case Open(q) => quote.None? && IsQuote(q)
    case Within(c) => quote.Some? && c != quote.value && c != '\\'
    case Close(q) => quote == Some(q)
  }

  function After(p: Piece, quote: Option<char>): Option<char> {
    match p
    case Open(q) => Some(q)
    case Close(_) => None
    case _ => quote
  }

  predicate WellFormed(pieces: seq<Piece>, quote: Option<char>) {
    pieces == [] || (Fits(pieces[0], quote) && WellFormed(pieces[1..], After(pieces[0], quote)))
  }

  function QuoteAfter(pieces: seq<Piece>, quote: Option<char>): Option<char> {
    if pieces == [] then quote else QuoteAfter(pieces[1..], After(pieces[0], quote))
  }

  function PieceText(p: Piece): string {
    match p
    case Bare(c) => [c]
    case Escape(c) => ['\\', c]
    case Open(q) => [q]
    case Within(c) => [c]
    case Close(q) => [q]
  }

  function Print(pieces: seq<Piece>): string {
    if pieces == [] then "" else PieceText(pieces[0]) + Print(pieces[1..])
  }

  /** The command is these pieces, in order, and the backslash that may dangle. */
  predicate Derives(r: Reading, quote: Option<char>, command: string) {
    && WellFormed(r.pieces, quote) && r.quote == QuoteAfter(r.pieces, quote)
    && command == Print(r.pieces) + if r.dangling then ['\\'] else []
  }

  // ---------------------------------------------------------------------
  // Reading is the inverse of printing.

  predicate Quoting(quote: Option<char>) {
    quote.Some? ==> IsQuote(quote.value)
  }

  /** The piece that a character other than a backslash makes. */
  function PieceOf(c: char, quote: Option<char>): Piece {
    if quote.Some? then (if c == quote.value then Close(c) else Within(c))
    else if IsQuote(c) then Open(c) else Bare(c)
  }

  function Read(command: string, quote: Option<char>): Reading {
    if command == "" then Reading([], quote, false)
    else if command[0] == '\\' then
      if |command| == 1 then Reading([], quote, true)
      else Prefixed(Escape(command[1]), Read(command[2..], quote))
    else
      var p := PieceOf(command[0], quote);
      Prefixed(p, Read(command[1..], After(p, quote)))
  }

  function Prefixed(p: Piece, r: Reading): Reading {
    r.(pieces := [p] + r.pieces)
  }

  lemma PrefixedDerives(p: Piece, r: Reading, quote: Option<char>, rest: string)
    requires Fits(p, quote) && Derives(r, After(p, quote), rest)
    ensures Derives(Prefixed(p, r), quote, PieceText(p) + rest)
  {
    assert ([p] + r.pieces)[1..] == r.pieces;
  }

  /** Every command has a reading. */
  lemma {:induction false} ReadDerives(command: string, quote: Option<char>)
    requires Quoting(quote)
    ensures Derives(Read(command, quote), quote, command)
  {
    if command == "" || command == "\\" {
      assert command == "\\" ==> command[0] == '\\';
    } else if command[0] == '\\' {
      ReadDerives(command[2..], quote);
      PrefixedDerives(Escape(command[1]), Read(command[2..], quote), quote, command[2..]);
      assert command == ['\\', command[1]] + command[2..];
    } else {
      var p := PieceOf(command[0], quote);
      ReadDerives(command[1..], After(p, quote));
      PrefixedDerives(p, Read(command[1..], After(p, quote)), quote, command[1..]);
      assert command == [command[0]] + command[1..];
    }
  }

  lemma ReadPrefixed(p: Piece, tail: string, quote: Option<char>)
    requires Quoting(quote) && Fits(p, quote)
    ensures Read(PieceText(p) + tail, quote) == Prefixed(p, Read(tail, After(p, quote)))
    ensures Quoting(After(p, quote))
  {
    var command := PieceText(p) + tail;
    if p.Escape? {
      assert command[2..] == tail;
    } else {
      assert command[1..] == tail && p == PieceOf(command[0], quote);
    }
  }

  /** And only one: the grammar is unambiguous. */
  lemma {:induction false} DerivesUnique(r: Reading, quote: Option<char>, command: string)
    requires Quoting(quote) && Derives(r, quote, command)
    ensures Read(command, quote) == r
    decreases |r.pieces|
  {
    var end := if r.dangling then ['\\'] else [];
    if r.pieces == [] {
      assert command == end;
    } else {
      var p, rest := r.pieces[0], r.(pieces := r.pieces[1..]);
      var tail := Print(rest.pieces) + end;
      assert command == PieceText(p) + tail;
      ReadPrefixed(p, tail, quote);
      DerivesUnique(rest, After(p, quote), tail);
      assert r.pieces == [p] + rest.pieces;
    }
  }

  // ---------------------------------------------------------------------
  // The words of a command.

  /** What a piece contributes: a character of a word, a break between words, or nothing. */
  datatype Letter = Char(c: char) | Break

  function LettersOf(p: Piece): seq<Letter> {
    match p
    case Bare(c) => if IsBlank(c) then [Break] else [Char(c)]
    case Escape(c) => [Char(c)]
    case Within(c) => [Char(c)]
    case _ => []
  }

  function Letters(pieces: seq<Piece>): seq<Letter> {
    if pieces == [] then [] else Letters(pieces[..|pieces| - 1]) + LettersOf(pieces[|pieces| - 1])
  }

  function NonEmpty(word: string): seq<string> {
    if word == "" then [] else [word]
  }

  /** The word after the last break. */
  function LastWord(letters: seq<Letter>): string {
    if letters == [] || letters[|letters| - 1].Break? then ""
    else LastWord(letters[..|letters| - 1]) + [letters[|letters| - 1].c]
  }

  /** The nonempty words before the last break. */
  function EndedWords(letters: seq<Letter>): seq<string> {
    if letters == [] then []
    else
      var init := letters[..|letters| - 1];
      EndedWords(init) + if letters[|letters| - 1].Break? then NonEmpty(LastWord(init)) else []
  }

  /** The maximal nonempty runs of characters. */
  function Words(letters: seq<Letter>): seq<string> {
    EndedWords(letters) + NonEmpty(LastWord(letters))
  }

  predicate Unquoted(pieces: seq<Piece>) {
    forall i :: 0 <= i < |pieces| ==> !(pieces[i].Bare? && IsMeta(pieces[i].c))
  }

  function Argv(command: string): seq<string> {
    Words(Letters(Read(command, None).pieces))
  }

  predicate Simple(command: string) {
    var r := Read(command, None);
    r.quote.None? && !r.dangling && Unquoted(r.pieces)
  }

  /** A command is simple exactly if it is made of closed quotes, complete escapes and bare characters
  among which there is no shell metacharacter. */
  lemma SimpleMeaning(command: string)
    ensures Simple(command) <==>
            exists pieces :: WellFormed(pieces, None) && QuoteAfter(pieces, None).None? && Unquoted(pieces) &&
                             command == Print(pieces)
  {
    ReadDerives(command, None);
    forall pieces | WellFormed(pieces, None) && QuoteAfter(pieces, None).None? && Unquoted(pieces) &&
        command == Print(pieces)
      ensures Simple(command)
    {
      DerivesUnique(Reading(pieces, None, false), None, command);
    }
  }

  // ---------------------------------------------------------------------
  // The lexer.

  /** The part of the command read so far is `done`; `escaped` says that a backslash is pending. */
  ghost predicate Lexing(command: string, i: nat, done: seq<Piece>, quote: Option<char>, escaped: bool) {
    && i <= |command| && (escaped ==> i > 0 && command[i - 1] == '\\')
    && var rest := Read(command[if escaped then i - 1 else i..], quote);
       Read(command, None) == rest.(pieces := done + rest.pieces)
  }

  ghost predicate Collected(done: seq<Piece>, argv: seq<string>, current: string, simple: bool) {
    && argv == EndedWords(Letters(done)) && current == LastWord(Letters(done))
    && simple == Unquoted(done)
  }

  lemma CollectPiece(done: seq<Piece>, p: Piece)
    ensures Letters(done + [p]) == Letters(done) + LettersOf(p)
    ensures Unquoted(done + [p]) <==> Unquoted(done) && !(p.Bare? && IsMeta(p.c))
  {
    assert (done + [p])[..|done|] == done;
  }

  lemma CollectLetter(letters: seq<Letter>, l: Letter)
    ensures LastWord(letters + [l]) == if l.Break? then "" else LastWord(letters) + [l.c]
    ensures EndedWords(letters + [l]) == EndedWords(letters) + if l.Break? then NonEmpty(LastWord(letters)) else []
  {
    assert (letters + [l])[..|letters|] == letters;
  }

  /** A piece that contributes nothing, a character, or a break. */
  lemma CollectSilent(done: seq<Piece>, p: Piece, argv: seq<string>, current: string, simple: bool)
    requires Collected(done, argv, current, simple) && LettersOf(p) == [] && !p.Bare?
    ensures Collected(done + [p], argv, current, simple)
  {
    CollectPiece(done, p);
    assert Letters(done) + [] == Letters(done);
  }

  lemma CollectChar(done: seq<Piece>, p: Piece, argv: seq<string>, current: string, simple: bool, c: char)
    requires Collected(done, argv, current, simple) && LettersOf(p) == [Char(c)]
    ensures Collected(done + [p], argv, current + [c], simple && !(p.Bare? && IsMeta(p.c)))
  {
    CollectPiece(done, p);
    CollectLetter(Letters(done), Char(c));
    assert EndedWords(Letters(done)) + [] == EndedWords(Letters(done));
  }

  lemma CollectBreak(done: seq<Piece>, p: Piece, argv: seq<string>, current: string, simple: bool)
    requires Collected(done, argv, current, simple) && LettersOf(p) == [Break] && !(p.Bare? && IsMeta(p.c))
    ensures Collected(done + [p], argv + NonEmpty(current), "", simple)
  {
    CollectPiece(done, p);
    CollectLetter(Letters(done), Break);
  }

  lemma LexNext(command: string, i: nat, done: seq<Piece>, quote: Option<char>, p: Piece)
    requires i < |command| && Lexing(command, i, done, quote, false) && command[i] != '\\' &&
             p == PieceOf(command[i], quote)
    ensures Lexing(command, i + 1, done + [p], After(p, quote), false)
  {
    assert command[i..][1..] == command[i + 1..];
    var rest := Read(command[i + 1..], After(p, quote));
    assert done + ([p] + rest.pieces) == done + [p] + rest.pieces;
  }

  lemma LexEscape(command: string, i: nat, done: seq<Piece>, quote: Option<char>)
    requires i < |command| && Lexing(command, i, done, quote, true)
    ensures Lexing(command, i + 1, done + [Escape(command[i])], quote, false)
  {
    assert command[i - 1..][2..] == command[i + 1..];
    var rest := Read(command[i + 1..], quote);
    assert done + ([Escape(command[i])] + rest.pieces) == done + [Escape(command[i])] + rest.pieces;
  }

  /** A character outside quotes and escapes: a metacharacter, white space, or part of a word. */
  method ReadBare(ch: char, argv0: seq<string>, current0: string, simple0: bool, ghost done: seq<Piece>)
    returns (argv: seq<string>, current: string, simple: bool)
    requires Collected(done, argv0, current0, simple0)
    ensures Collected(done + [Bare(ch)], argv, current, simple)
  {
    argv, current, simple := argv0, current0, simple0;
    if ch == '&' || ch == '|' || ch == ';' || ch == '>' || ch == '<' || ch == '`' {
      simple := false;
    }
    if ch == '$' {
      simple := false;
    }
    if ch == ' ' || ch == '\t' || ch == '\n' || ch == '\r' {
      CollectBreak(done, Bare(ch), argv0, current0, simple0);
      if |current| > 0 {
        argv := argv + [current];
        current := "";
      } else {
        assert argv + [] == argv;
      }
      return;
    }
    CollectChar(done, Bare(ch), argv0, current0, simple0, ch);
    current := current + [ch];
  }

  /** How one character of the command changes the lexer's variables. */
  method ReadRune(ch: char, argv0: seq<string>, current0: string, quote0: Option<char>, escaped0: bool, simple0: bool,
                  ghost done: seq<Piece>)
    returns (argv: seq<string>, current: string, quote: Option<char>, escaped: bool, simple: bool)
    requires Collected(done, argv0, current0, simple0)
    ensures escaped == Escaping(ch, escaped0) && quote == QuotingAfter(ch, quote0, escaped0)
    ensures Collected(Consumed(done, ch, quote0, escaped0), argv, current, simple)
  {
    argv, current, quote, escaped, simple := argv0, current0, quote0, false, simple0;
    if escaped0 {
      CollectChar(done, Escape(ch), argv, current, simple, ch);
      current := current + [ch];
      return;
    }
    if ch == '\\' {
      escaped := true;
      return;
    }
    if quote.Some? {
      if ch == quote.value {
        CollectSilent(done, Close(ch), argv, current, simple);
        quote := None;
      } else {
        CollectChar(done, Within(ch), argv, current, simple, ch);
        current := current + [ch];
      }
      return;
    }
    if ch == '\'' || ch == '"' {
      CollectSilent(done, Open(ch), argv, current, simple);
      quote := Some(ch);
      return;
    }
    argv, current, simple := ReadBare(ch, argv, current, simple, done);
  }

  /** The pieces read once `ch` has been: a backslash only announces one. */
  function Consumed(done: seq<Piece>, ch: char, quote: Option<char>, escaped: bool): seq<Piece> {
    if escaped then done + [Escape(ch)] else if ch == '\\' then done else done + [PieceOf(ch, quote)]
  }

  /** Whether a backslash is pending, and the quote that is open, once `ch` has been read. */
  predicate Escaping(ch: char, escaped: bool) {
    !escaped && ch == '\\'
  }

  function QuotingAfter(ch: char, quote: Option<char>, escaped: bool): Option<char> {
    if escaped || ch == '\\' then quote else After(PieceOf(ch, quote), quote)
  }

  lemma LexRound(command: string, i: nat, done: seq<Piece>, quote: Option<char>, escaped: bool)
    requires i < |command| && Lexing(command, i, done, quote, escaped)
    ensures var ch := command[i];
            Lexing(command, i + 1, Consumed(done, ch, quote, escaped), QuotingAfter(ch, quote, escaped),
                   Escaping(ch, escaped))
  {
    if escaped {
      LexEscape(command, i, done, quote);
    } else if command[i] != '\\' {
      LexNext(command, i, done, quote, PieceOf(command[i], quote));
    }
  }

  lemma LexDone(command: string, done: seq<Piece>, quote: Option<char>, escaped: bool)
    requires Lexing(command, |command|, done, quote, escaped)
    ensures Read(command, None) == Reading(done, quote, escaped)
  {
    assert escaped ==> command[|command| - 1..] == ['\\'];
    assert command[|command|..] == "";
    assert done + [] == done;
  }

  /** Splits a command into words and tells whether it is simple. */
  method SplitSimpleShellCommand(command: string) returns (argv: seq<string>, simple: bool)
    ensures argv == Argv(command)
    ensures simple <==> Simple(command)
  {
    argv, simple := [], true;
    var current, quote, escaped := "", None, false;
    ghost var done: seq<Piece> := [];
    assert command[0..] == command;
    for i := 0 to |command|
      invariant Lexing(command, i, done, quote, escaped)
      invariant Collected(done, argv, current, simple)
    {
      LexRound(command, i, done, quote, escaped);
      ghost var more := Consumed(done, command[i], quote, escaped);
      argv, current, quote, escaped, simple := ReadRune(command[i], argv, current, quote, escaped, simple, done);
      done := more;
    }
    LexDone(command, done, quote, escaped);
    if quote.Some? || escaped {
      simple := false;
    }
    if |current| > 0 {
      argv := argv + [current];
    }
  }

  // ---------------------------------------------------------------------
  // Splitting undoes quoting.

  function Chars(word: string): (letters: seq<Letter>)
    ensures |letters| == |word| && forall i :: 0 <= i < |word| ==> letters[i] == Char(word[i])
  {
    seq(|word|, i requires 0 <= i < |word| => Char(word[i]))
  }

  /** Pieces that spell one argument: quotes closed, and blanks only where they are protected. */
  ghost predicate Spells(chunk: seq<Piece>, arg: string) {
    WellFormed(chunk, None) && QuoteAfter(chunk, None).None? && Letters(chunk) == Chars(arg)
  }

  predicate Gap(gap: string) {
    forall i :: 0 <= i < |gap| ==> IsBlank(gap[i])
  }

  function BarePieces(text: string): (pieces: seq<Piece>)
    ensures |pieces| == |text| && forall i :: 0 <= i < |text| ==> pieces[i] == Bare(text[i])
  {
    seq(|text|, i requires 0 <= i < |text| => Bare(text[i]))
  }

  /** Chunks with gaps around and between them. */
  function Line(chunks: seq<seq<Piece>>, gaps: seq<string>): seq<Piece>
    requires |gaps| == |chunks| + 1
  {
    if chunks == [] then BarePieces(gaps[0])
    else
      var n := |chunks| - 1;
      Line(chunks[..n], gaps[..n + 1]) + chunks[n] + BarePieces(gaps[n + 1])
  }

  /** Gaps that keep neighbouring arguments apart. */
  predicate Apart(gaps: seq<string>) {
    && (forall i :: 0 <= i < |gaps| ==> Gap(gaps[i]))
    && forall i :: 0 < i < |gaps| - 1 ==> gaps[i] != ""
  }

  function WithoutEmpty(args: seq<string>): seq<string> {
    if args == [] then [] else WithoutEmpty(args[..|args| - 1]) + NonEmpty(args[|args| - 1])
  }

  lemma {:induction false} ConcatWellFormed(a: seq<Piece>, b: seq<Piece>, quote: Option<char>)
    requires WellFormed(a, quote) && WellFormed(b, QuoteAfter(a, quote))
    ensures WellFormed(a + b, quote)
    ensures QuoteAfter(a + b, quote) == QuoteAfter(b, QuoteAfter(a, quote))
  {
    if a == [] {
      assert a + b == b;
    } else {
      ConcatWellFormed(a[1..], b, After(a[0], quote));
      Tail(a, b);
    }
  }

  lemma Tail<T>(a: seq<T>, b: seq<T>)
    requires a != []
    ensures (a + b)[1..] == a[1..] + b && (a + b)[0] == a[0]
  {
    assert (a + b)[1..] == a[1..] + b;
  }

  lemma Init<T>(a: seq<T>, b: seq<T>)
    requires b != []
    ensures (a + b)[..|a + b| - 1] == a + b[..|b| - 1] && (a + b)[|a + b| - 1] == b[|b| - 1]
  {
    assert (a + b)[..|a + b| - 1] == a + b[..|b| - 1];
  }

  lemma {:induction false} ConcatLetters(a: seq<Piece>, b: seq<Piece>)
    ensures Letters(a + b) == Letters(a) + Letters(b)
  {
    if b == [] {
      assert a + b == a;
    } else {
      var init, last := b[..|b| - 1], b[|b| - 1];
      ConcatLetters(a, init);
      Init(a, b);
      Regroup(Letters(a), Letters(init), LettersOf(last));
    }
  }

  lemma {:induction false} BareWellFormed(text: string)
    requires forall i :: 0 <= i < |text| ==> text[i] != '\\' && !IsQuote(text[i])
    ensures WellFormed(BarePieces(text), None) && QuoteAfter(BarePieces(text), None).None?
  {
    if text != "" {
      BareWellFormed(text[1..]);
      assert BarePieces(text)[1..] == BarePieces(text[1..]);
    }
  }

  lemma CharsSnoc(word: string, n: nat)
    requires |word| == n + 1
    ensures Chars(word) == Chars(word[..n]) + [Char(word[n])] && word == word[..n] + [word[n]]
  {}

  lemma {:induction false} CharsExtend(letters: seq<Letter>, word: string)
    ensures LastWord(letters + Chars(word)) == LastWord(letters) + word
    ensures EndedWords(letters + Chars(word)) == EndedWords(letters)
  {
    if word == "" {
      assert letters + Chars(word) == letters;
    } else {
      var n := |word| - 1;
      CharsExtend(letters, word[..n]);
      CharsSnoc(word, n);
      Regroup(letters, Chars(word[..n]), [Char(word[n])]);
      CollectLetter(letters + Chars(word[..n]), Char(word[n]));
      Regroup(LastWord(letters), word[..n], [word[n]]);
    }
  }

  lemma {:induction false} GapEnds(letters: seq<Letter>, gap: string)
    requires Gap(gap)
    ensures var all := letters + Letters(BarePieces(gap));
            if gap == "" then all == letters
            else LastWord(all) == "" && EndedWords(all) == EndedWords(letters) + NonEmpty(LastWord(letters))
  {
    if gap != "" {
      var init := gap[..|gap| - 1];
      GapEnds(letters, init);
      assert BarePieces(gap)[..|gap| - 1] == BarePieces(init);
      CollectLetter(letters + Letters(BarePieces(init)), Break);
      assert letters + Letters(BarePieces(gap)) == letters + Letters(BarePieces(init)) + [Break];
    }
  }

  lemma {:induction false} LineWellFormed(chunks: seq<seq<Piece>>, gaps: seq<string>, args: seq<string>)
    requires |gaps| == |chunks| + 1 && |args| == |chunks| && Apart(gaps)
    requires forall i :: 0 <= i < |chunks| ==> Spells(chunks[i], args[i])
    ensures WellFormed(Line(chunks, gaps), None) && QuoteAfter(Line(chunks, gaps), None).None?
  {
    BareWellFormed(gaps[|chunks|]);
    if chunks != [] {
      var n := |chunks| - 1;
      var init := Line(chunks[..n], gaps[..n + 1]);
      LineWellFormed(chunks[..n], gaps[..n + 1], args[..n]);
      ConcatWellFormed(init, chunks[n], None);
      ConcatWellFormed(init + chunks[n], BarePieces(gaps[n + 1]), None);
    }
  }

  lemma WordsStep(letters: seq<Letter>, mid: seq<Letter>, more: seq<Letter>, arg: string, gap: string)
    requires LastWord(letters) == "" && LastWord(mid) == arg && EndedWords(mid) == EndedWords(letters)
    requires if gap == "" then more == mid
             else LastWord(more) == "" && EndedWords(more) == EndedWords(mid) + NonEmpty(LastWord(mid))
    ensures Words(more) == Words(letters) + NonEmpty(arg)
  {}

  /** One more argument and the gap after it. */
  lemma WordsNext(letters: seq<Letter>, arg: string, gap: string)
    requires LastWord(letters) == "" && Gap(gap)
    ensures var more := letters + Chars(arg) + Letters(BarePieces(gap));
            Words(more) == Words(letters) + NonEmpty(arg) && (gap != "" ==> LastWord(more) == "")
  {
    var mid := letters + Chars(arg);
    CharsExtend(letters, arg);
    assert "" + arg == arg;
    GapEnds(mid, gap);
    WordsStep(letters, mid, mid + Letters(BarePieces(gap)), arg, gap);
  }

  lemma {:induction false} LineWords(chunks: seq<seq<Piece>>, gaps: seq<string>, args: seq<string>)
    requires |gaps| == |chunks| + 1 && |args| == |chunks| && Apart(gaps)
    requires forall i :: 0 <= i < |chunks| ==> Letters(chunks[i]) == Chars(args[i])
    ensures Words(Letters(Line(chunks, gaps))) == WithoutEmpty(args)
    ensures chunks == [] || gaps[|chunks|] != "" ==> LastWord(Letters(Line(chunks, gaps))) == ""
  {
    if chunks == [] {
      GapEnds([], gaps[0]);
      assert [] + Letters(BarePieces(gaps[0])) == Letters(BarePieces(gaps[0]));
    } else {
      var n := |chunks| - 1;
      var init := Line(chunks[..n], gaps[..n + 1]);
      LineWords(chunks[..n], gaps[..n + 1], args[..n]);
      ConcatLetters(init, chunks[n]);
      ConcatLetters(init + chunks[n], BarePieces(gaps[n + 1]));
      WordsNext(Letters(init), args[n], gaps[n + 1]);
    }
  }

  /** However its arguments are quoted or escaped, a line splits into exactly the nonempty ones. */
  lemma LineSplits(chunks: seq<seq<Piece>>, gaps: seq<string>, args: seq<string>)
    requires |gaps| == |chunks| + 1 && |args| == |chunks| && Apart(gaps)
    requires forall i :: 0 <= i < |chunks| ==> Spells(chunks[i], args[i])
    ensures var line := Line(chunks, gaps);
            Argv(Print(line)) == WithoutEmpty(args) && (Simple(Print(line)) <==> Unquoted(line))
  {
    var line := Line(chunks, gaps);
    LineWellFormed(chunks, gaps, args);
    LineWords(chunks, gaps, args);
    DerivesUnique(Reading(line, None, false), None, Print(line));
  }

  // ---------------------------------------------------------------------
  // Ways of writing an argument.

  /** An argument can be written as it is, or in quotes. */
  datatype Style = Plainly | InQuotes(quote: char)

  const BLANKS := " \t\n\r"
  const OPERATORS := "&|;><`$"

  /** The argument with a backslash before each of its quotes and backslashes. */
  function Backslashed(quote: char, arg: string): string {
    if arg == "" then ""
    else (if arg[0] == quote || arg[0] == '\\' then ['\\', arg[0]] else [arg[0]]) + Backslashed(quote, arg[1..])
  }

  function Written(style: Style, arg: string): string {
    match style
    case Plainly => arg
    case InQuotes(quote) => [quote] + Backslashed(quote, arg) + [quote]
  }

  /** Quotes are single or double, and an argument without them holds no blank, quote or backslash. */
  predicate Writable(style: Style, arg: string) {
    match style
    case Plainly => forall c :: c in arg ==> c !in BLANKS && c != '\'' && c != '"' && c != '\\'
    case InQuotes(quote) => quote == '\'' || quote == '"'
  }

  /** Words with gaps around and between them. */
  function Spaced(words: seq<string>, gaps: seq<string>): string
    requires |gaps| == |words| + 1
  {
    if words == [] then gaps[0]
    else
      var n := |words| - 1;
      Spaced(words[..n], gaps[..n + 1]) + words[n] + gaps[n + 1]
  }

  /** The gaps are blank, and those between words are not empty. */
  predicate Separates(gaps: seq<string>) {
    && (forall i, c :: 0 <= i < |gaps| && c in gaps[i] ==> c in BLANKS)
    && forall i :: 0 < i < |gaps| - 1 ==> gaps[i] != ""
  }

  function AllWritten(styles: seq<Style>, args: seq<string>): (words: seq<string>)
    requires |styles| == |args|
    ensures |words| == |args| && forall i :: 0 <= i < |args| ==> words[i] == Written(styles[i], args[i])
  {
    seq(|args|, i requires 0 <= i < |args| => Written(styles[i], args[i]))
  }

  // ---------------------------------------------------------------------
  // The pieces of a written argument.

  function Protected(quote: char, arg: string): (pieces: seq<Piece>)
    ensures |pieces| == |arg|
    ensures forall i :: 0 <= i < |arg| ==>
                          pieces[i] == if arg[i] == quote || arg[i] == '\\' then Escape(arg[i]) else Within(arg[i])
  {
    seq(|arg|, i requires 0 <= i < |arg| =>
        if arg[i] == quote || arg[i] == '\\' then Escape(arg[i]) else Within(arg[i]))
  }

  function QuotedPieces(quote: char, arg: string): seq<Piece> {
    [Open(quote)] + Protected(quote, arg) + [Close(quote)]
  }

  function PiecesOf(style: Style, arg: string): seq<Piece> {
    match style
    case Plainly => BarePieces(arg)
    case InQuotes(quote) => QuotedPieces(quote, arg)
  }

  lemma {:induction false} ProtectedSpells(quote: char, arg: string)
    ensures WellFormed(Protected(quote, arg), Some(quote))
    ensures QuoteAfter(Protected(quote, arg), Some(quote)) == Some(quote)
    ensures Print(Protected(quote, arg)) == Backslashed(quote, arg)
  {
    if arg != "" {
      ProtectedSpells(quote, arg[1..]);
      assert Protected(quote, arg)[1..] == Protected(quote, arg[1..]);
    }
  }

  lemma {:induction false} ProtectedLetters(quote: char, arg: string)
    ensures Letters(Protected(quote, arg)) == Chars(arg)
  {
    if arg != "" {
      var n := |arg| - 1;
      ProtectedLetters(quote, arg[..n]);
      assert Protected(quote, arg)[..n] == Protected(quote, arg[..n]);
    }
  }

  lemma {:induction false} ConcatPrint(a: seq<Piece>, b: seq<Piece>)
    ensures Print(a + b) == Print(a) + Print(b)
  {
    if a == [] {
      assert a + b == b;
    } else {
      ConcatPrint(a[1..], b);
      Tail(a, b);
      Regroup(PieceText(a[0]), Print(a[1..]), Print(b));
    }
  }

  lemma {:induction false} BarePrint(text: string)
    ensures Print(BarePieces(text)) == text
  {
    if text != "" {
      BarePrint(text[1..]);
      assert BarePieces(text)[1..] == BarePieces(text[1..]);
      assert text == [text[0]] + text[1..];
    }
  }

  lemma {:induction false} BareLetters(text: string)
    requires forall i :: 0 <= i < |text| ==> !IsBlank(text[i])
    ensures Letters(BarePieces(text)) == Chars(text)
  {
    if text != "" {
      var n := |text| - 1;
      BareLetters(text[..n]);
      assert BarePieces(text)[..n] == BarePieces(text[..n]);
    }
  }

  lemma OnePiece(p: Piece, quote: Option<char>)
    requires Fits(p, quote)
    ensures WellFormed([p], quote) && QuoteAfter([p], quote) == After(p, quote) && Print([p]) == PieceText(p)
  {
    assert [p][1..] == [] && Print([]) == "";
    assert PieceText(p) + "" == PieceText(p);
  }

  lemma QuotedSpells(quote: char, arg: string)
    requires quote == '\'' || quote == '"'
    ensures var pieces := QuotedPieces(quote, arg);
            && WellFormed(pieces, None) && QuoteAfter(pieces, None).None?
            && Print(pieces) == [quote] + Backslashed(quote, arg) + [quote]
  {
    var open, close := [Open(quote)], [Close(quote)];
    OnePiece(Open(quote), None);
    OnePiece(Close(quote), Some(quote));
    ProtectedSpells(quote, arg);
    ConcatWellFormed(open, Protected(quote, arg), None);
    ConcatWellFormed(open + Protected(quote, arg), close, None);
    ConcatPrint(open, Protected(quote, arg));
    ConcatPrint(open + Protected(quote, arg), close);
  }

  lemma SilentPiece(p: Piece)
    requires LettersOf(p) == []
    ensures Letters([p]) == []
  {
    assert [p][..0] == [];
  }

  lemma QuotedLetters(quote: char, arg: string)
    ensures Letters(QuotedPieces(quote, arg)) == Chars(arg)
  {
    SilentPiece(Open(quote));
    SilentPiece(Close(quote));
    ProtectedLetters(quote, arg);
    ConcatLetters([Open(quote)], Protected(quote, arg));
    ConcatLetters([Open(quote)] + Protected(quote, arg), [Close(quote)]);
  }

  lemma CharacterSets(c: char)
    ensures (c in BLANKS <==> IsBlank(c)) && (c in OPERATORS <==> IsMeta(c))
  {}

  /** A word holds a bare operator only if it is written without quotes and has one. */
  predicate HasOperator(style: Style, arg: string) {
    style.Plainly? && exists c :: c in arg && c in OPERATORS
  }

  lemma WrittenSpells(style: Style, arg: string)
    requires Writable(style, arg)
    ensures Spells(PiecesOf(style, arg), arg) && Print(PiecesOf(style, arg)) == Written(style, arg)
    ensures Unquoted(PiecesOf(style, arg)) <==> !HasOperator(style, arg)
  {
    match style
    case Plainly =>
      forall i | 0 <= i < |arg|
        ensures !IsBlank(arg[i]) && arg[i] != '\\' && !IsQuote(arg[i])
        ensures arg[i] in OPERATORS <==> IsMeta(arg[i])
      {
        assert arg[i] in arg;
        CharacterSets(arg[i]);
      }
      BareWellFormed(arg);
      BareLetters(arg);
      BarePrint(arg);
    case InQuotes(quote) =>
      QuotedSpells(quote, arg);
      QuotedLetters(quote, arg);
  }

  // ---------------------------------------------------------------------
  // The round trip.

  lemma {:induction false} LineUnquoted(chunks: seq<seq<Piece>>, gaps: seq<string>)
    requires |gaps| == |chunks| + 1 && Apart(gaps)
    ensures Unquoted(Line(chunks, gaps)) <==> forall i :: 0 <= i < |chunks| ==> Unquoted(chunks[i])
  {
    if chunks != [] {
      var n := |chunks| - 1;
      var init, gap := Line(chunks[..n], gaps[..n + 1]), BarePieces(gaps[n + 1]);
      LineUnquoted(chunks[..n], gaps[..n + 1]);
      UnquotedConcat(init, chunks[n]);
      UnquotedConcat(init + chunks[n], gap);
    }
  }

  lemma UnquotedConcat(a: seq<Piece>, b: seq<Piece>)
    ensures Unquoted(a + b) <==> Unquoted(a) && Unquoted(b)
  {
    if Unquoted(a + b) {
      assert forall i :: 0 <= i < |a| ==> a[i] == (a + b)[i];
      assert forall i :: 0 <= i < |b| ==> b[i] == (a + b)[|a| + i];
    }
  }

  lemma {:induction false} LinePrints(chunks: seq<seq<Piece>>, gaps: seq<string>, words: seq<string>)
    requires |gaps| == |chunks| + 1 && |words| == |chunks|
    requires forall i :: 0 <= i < |chunks| ==> Print(chunks[i]) == words[i]
    ensures Print(Line(chunks, gaps)) == Spaced(words, gaps)
  {
    BarePrint(gaps[|chunks|]);
    if chunks != [] {
      var n := |chunks| - 1;
      var init := Line(chunks[..n], gaps[..n + 1]);
      LinePrints(chunks[..n], gaps[..n + 1], words[..n]);
      ConcatPrint(init, chunks[n]);
      ConcatPrint(init + chunks[n], BarePieces(gaps[n + 1]));
    }
  }

  function AllPieces(styles: seq<Style>, args: seq<string>): (chunks: seq<seq<Piece>>)
    requires |styles| == |args|
    ensures |chunks| == |args| && forall i :: 0 <= i < |args| ==> chunks[i] == PiecesOf(styles[i], args[i])
  {
    seq(|args|, i requires 0 <= i < |args| => PiecesOf(styles[i], args[i]))
  }

  lemma SeparatesApart(gaps: seq<string>)
    requires Separates(gaps)
    ensures Apart(gaps)
  {
    forall i, k | 0 <= i < |gaps| && 0 <= k < |gaps[i]| ensures IsBlank(gaps[i][k]) {
      CharacterSets(gaps[i][k]);
      assert gaps[i][k] in gaps[i];
    }
  }

  /** Whichever arguments are written as they are and whichever in single or double quotes, splitting the line gives
  the arguments back, except that empty ones are lost; and the line is simple unless an operator stands outside
  quotes. */
  lemma QuotingRoundTrip(styles: seq<Style>, args: seq<string>, gaps: seq<string>)
    requires |styles| == |args| && |gaps| == |args| + 1 && Separates(gaps)
    requires forall i :: 0 <= i < |args| ==> Writable(styles[i], args[i])
    ensures var line := Spaced(AllWritten(styles, args), gaps);
            && Argv(line) == WithoutEmpty(args)
            && (Argv(line) == args <==> forall i :: 0 <= i < |args| ==> args[i] != "")
            && (Simple(line) <==> forall i :: 0 <= i < |args| ==> !HasOperator(styles[i], args[i]))
  {
    var chunks := AllPieces(styles, args);
    forall i | 0 <= i < |args|
      ensures Spells(chunks[i], args[i]) && Print(chunks[i]) == AllWritten(styles, args)[i]
      ensures Unquoted(chunks[i]) <==> !HasOperator(styles[i], args[i])
    {
      WrittenSpells(styles[i], args[i]);
    }
    SeparatesApart(gaps);
    LinePrints(chunks, gaps, AllWritten(styles, args));
    LineSplits(chunks, gaps, args);
    LineUnquoted(chunks, gaps);
    EmptyAreLost(args);
  }

  lemma {:induction false} EmptyAreLost(args: seq<string>)
    ensures |WithoutEmpty(args)| <= |args|
    ensures WithoutEmpty(args) == args <==> forall i :: 0 <= i < |args| ==> args[i] != ""
  {
    if args != [] {
      EmptyAreLost(args[..|args| - 1]);
      assert args == args[..|args| - 1] + [args[|args| - 1]];
    }
  }
}
