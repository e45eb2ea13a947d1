/** The part of the regular-expression language that glob translation writes: what expressions denote, and how
their text is read. */
module Regexes {
  import opened Orders

  datatype Regex =
    | Is(c: char)
    | NotNewline                       // .
    | NotSlash                         // [^/]
    | Star(r: Regex)
    | Optional(r: Regex)
    | Then(a: Regex, b: Regex)

  /** `r` matches the whole of `v`. */
  predicate Matches(r: Regex, v: string)
    decreases r, |v|
  {
    match r
    case Is(c) => v == [c]
    case NotNewline => |v| == 1 && v[0] != '\n'
    case NotSlash => |v| == 1 && v[0] != '/'
    case Star(s) => v == "" || exists k :: 0 < k <= |v| && Matches(s, v[..k]) && Matches(r, v[k..])
    case Optional(s) => v == "" || Matches(s, v)
    case Then(a, b) => exists k :: 0 <= k <= |v| && Matches(a, v[..k]) && Matches(b, v[k..])
  }

  /** The items one after the other match the whole of `v`. */
  predicate MatchesInTurn(items: seq<Regex>, v: string) {
    if items == [] then v == ""
    else exists k :: 0 <= k <= |v| && Matches(items[0], v[..k]) && MatchesInTurn(items[1..], v[k..])
  }

  // ---------------------------------------------------------------------
  // Reading the text of an expression.

  /** The characters that stand for themselves only after a backslash. */
  const OPERATORS := "\\.+*?()|[]{}^$"

  /** What was read at the front of a text, and the rest of it. */
  datatype Item = Item(regex: Regex, rest: string)
  datatype Items = Items(regexes: seq<Regex>, rest: string)

  predicate StartsWith(s: string, prefix: string) {
    prefix <= s
  }

  /** A text that would continue a repetition. */
  predicate Repeats(s: string) {
    s != "" && (s[0] == '*' || s[0] == '?' || s[0] == '+' || s[0] == '{')
  }

  function InTurn(items: seq<Regex>): Regex
    requires items != []
  {
    if |items| == 1 then items[0] else Then(items[0], InTurn(items[1..]))
  }

  /** A character, a class or a group in parentheses. */
  function ReadAtom(s: string): (item: Option<Item>)
    ensures item.Some? ==> |item.value.rest| < |s|
    decreases |s|, 0
  {
    if s == "" then None
    else if s[0] == '\\' then
      if |s| >= 2 && s[1] in OPERATORS then Some(Item(Is(s[1]), s[2..])) else None
    else if s[0] == '.' then Some(Item(NotNewline, s[1..]))
    else if StartsWith(s, "[^/]") then Some(Item(NotSlash, s[4..]))
    else if StartsWith(s, "(?:") then
      match ReadItems(s[3..])
      case None => None
      case Some(inner) =>
        if inner.regexes != [] && StartsWith(inner.rest, ")") then Some(Item(InTurn(inner.regexes), inner.rest[1..]))
        else None
    else if s[0] in OPERATORS then None
    else Some(Item(Is(s[0]), s[1..]))
  }

  /** An atom that may be repeated or left out; nothing is repeated twice. */
  function ReadItem(s: string): (item: Option<Item>)
    ensures item.Some? ==> |item.value.rest| < |s|
    decreases |s|, 1
  {
    match ReadAtom(s)
    case None => None
    case Some(atom) =>
      if !Repeats(atom.rest) then Some(atom)
      else if Repeats(atom.rest[1..]) then None
      else if atom.rest[0] == '*' then Some(Item(Star(atom.regex), atom.rest[1..]))
      else if atom.rest[0] == '?' then Some(Item(Optional(atom.regex), atom.rest[1..]))
      else None
  }

  /** Items up to the end or a closing parenthesis. */
  function ReadItems(s: string): (items: Option<Items>)
    ensures items.Some? ==> |items.value.rest| <= |s|
    decreases |s|, 2
  {
    if s == "" || s[0] == ')' then Some(Items([], s))
    else
      match ReadItem(s)
      case None => None
      case Some(first) =>
        match ReadItems(first.rest)
        case None => None
        case Some(others) => Some(Items([first.regex] + others.regexes, others.rest))
  }

  /** An expression anchored at both ends. */
  function ReadAnchored(s: string): Option<seq<Regex>> {
    if |s| < 2 || s[0] != '^' || s[|s| - 1] != '$' then None
    else
      match ReadItems(s[1..|s| - 1])
      case None => None
      case Some(items) => if items.rest == "" then Some(items.regexes) else None
  }

  /** A regular-expression engine does what the expression denotes, at least on anchored ones of this language. */
  ghost predicate Sound(engine: (string, string) -> bool) {
    forall s, v :: ReadAnchored(s).Some? ==> (engine(s, v) <==> MatchesInTurn(ReadAnchored(s).value, v))
  }
}
