/** Interpolation of a readiness URL: `${NAME}` placeholders filled from the environment. */
module ReadyUrl {
  import opened Orders

  /** A template read piece by piece: single characters and placeholders. */
  datatype Piece = Char(c: char) | Hole(name: string)

  /** The pieces, and what follows a placeholder that is never closed. */
  datatype Reading = Reading(pieces: seq<Piece>, open: Option<string>)

  // ---------------------------------------------------------------------
  // The grammar of templates.

  function PieceText(p: Piece): string {
    match p
    case Char(c) => [c]
    case Hole(name) => "${" + name + "}"
  }

  function Print(r: Reading): string
    decreases |r.pieces|
  {
    if r.pieces == [] then match r.open case None => "" case Some(rest) => "${" + rest
    else PieceText(r.pieces[0]) + Print(r.(pieces := r.pieces[1..]))
  }

  /** Characters never form the start of a placeholder, and names and unclosed rests hold no brace. */
  predicate WellFormed(r: Reading) {
    && (forall i :: 0 <= i < |r.pieces| && r.pieces[i].Hole? ==> '}' !in r.pieces[i].name)
    && (forall i :: 0 <= i < |r.pieces| - 1 ==> !(r.pieces[i] == Char('$') && r.pieces[i + 1] == Char('{')))
    && (r.open.Some? ==> '}' !in r.open.value)
  }

  /** The position of the first closing brace. */
  function BraceIn(s: string): (end: Option<nat>)
    ensures end.Some? ==> end.value < |s| && s[end.value] == '}' && '}' !in s[..end.value]
    ensures end.None? ==> '}' !in s
  {
    if s == "" then None
    else if s[0] == '}' then Some(0)
    else
      match BraceIn(s[1..])
      case None => None
      case Some(i) => assert s[..i + 1] == [s[0]] + s[1..][..i]; Some(i + 1)
  }

  predicate Opens(template: string) {
    |template| >= 2 && template[0] == '$' && template[1] == '{'
  }

  function Read(template: string): Reading {
    if template == "" then Reading([], None)
    else if Opens(template) then
      match BraceIn(template[2..])
      case None => Reading([], Some(template[2..]))
      case Some(end) => Prefixed(Hole(template[2..2 + end]), Read(template[end + 3..]))
    else Prefixed(Char(template[0]), Read(template[1..]))
  }

  function Prefixed(p: Piece, r: Reading): Reading {
    r.(pieces := [p] + r.pieces)
  }

  lemma PrefixedPrints(p: Piece, r: Reading)
    ensures Print(Prefixed(p, r)) == PieceText(p) + Print(r)
  {
    assert ([p] + r.pieces)[1..] == r.pieces;
  }

  lemma FirstChar(template: string)
    requires Read(template).pieces != [] && Read(template).pieces[0].Char?
    ensures template != "" && Read(template).pieces[0].c == template[0]
  {}

  /** A closed placeholder at the start of a template. */
  lemma HoleSplits(template: string, end: nat)
    requires Opens(template) && BraceIn(template[2..]) == Some(end)
    ensures end + 3 <= |template|
    ensures template == PieceText(Hole(template[2..2 + end])) + template[end + 3..]
    ensures '}' !in template[2..2 + end]
  {
    assert template[2..2 + end] == template[2..][..end];
    assert template[end + 2] == template[2..][end];
    SplitsInFour(template, end);
    assert template[..2] == "${" && template[end + 2..end + 3] == "}";
  }

  lemma SplitsInFour<T>(s: seq<T>, end: nat)
    requires end + 3 <= |s|
    ensures s == s[..2] + s[2..2 + end] + s[end + 2..end + 3] + s[end + 3..]
  {}

  lemma PrefixedWellFormed(p: Piece, r: Reading)
    requires WellFormed(r) && (p.Hole? ==> '}' !in p.name)
    requires p == Char('$') && r.pieces != [] ==> r.pieces[0] != Char('{')
    ensures WellFormed(Prefixed(p, r))
  {}

  lemma CharSplits(template: string)
    requires template != ""
    ensures template == PieceText(Char(template[0])) + template[1..]
  {}

  /** Every template has a reading. */
  lemma {:induction false} ReadPrints(template: string)
    ensures WellFormed(Read(template)) && Print(Read(template)) == template
  {
    if template != "" {
      if Opens(template) {
        match BraceIn(template[2..])
        case None =>
          assert template == "${" + template[2..];
        case Some(end) =>
          HoleSplits(template, end);
          var hole, rest := Hole(template[2..2 + end]), template[end + 3..];
          ReadPrints(rest);
          PrefixedPrints(hole, Read(rest));
          PrefixedWellFormed(hole, Read(rest));
      } else {
        var c, rest := Char(template[0]), template[1..];
        CharSplits(template);
        ReadPrints(rest);
        PrefixedPrints(c, Read(rest));
        if Read(rest).pieces != [] && Read(rest).pieces[0].Char? {
          FirstChar(rest);
        }
        PrefixedWellFormed(c, Read(rest));
      }
    }
  }

  lemma {:induction false} BraceAfter(name: string, rest: string)
    requires '}' !in name
    ensures BraceIn(name + "}" + rest) == Some(|name|)
  {
    var s := name + "}" + rest;
    if name != "" {
      BraceAfter(name[1..], rest);
      assert s[1..] == name[1..] + "}" + rest;
    }
  }

  lemma ReadHole(name: string, rest: string)
    requires '}' !in name
    ensures Read("${" + name + "}" + rest) == Prefixed(Hole(name), Read(rest))
  {
    var template := "${" + name + "}" + rest;
    BraceAfter(name, rest);
    assert template[2..] == name + "}" + rest;
    assert template[2..2 + |name|] == name && template[|name| + 3..] == rest;
  }

  lemma PrintStarts(r: Reading)
    requires Print(r) != "" && Print(r)[0] == '{'
    ensures r.pieces != [] && r.pieces[0] == Char('{')
  {}

  /** And only one. */
  lemma {:induction false} ReadIsOnly(r: Reading)
    requires WellFormed(r)
    ensures Read(Print(r)) == r
    decreases |r.pieces|
  {
    if r.pieces == [] {
      if r.open.Some? {
        assert ("${" + r.open.value)[2..] == r.open.value;
      }
    } else {
      var p, rest := r.pieces[0], r.(pieces := r.pieces[1..]);
      ReadIsOnly(rest);
      assert r == Prefixed(p, rest);
      if p.Hole? {
        ReadHole(p.name, Print(rest));
        assert Print(r) == "${" + p.name + "}" + Print(rest);
      } else {
        assert Print(r)[1..] == Print(rest);
        if Print(rest) != "" && Print(rest)[0] == '{' {
          PrintStarts(rest);
        }
      }
    }
  }

  // ---------------------------------------------------------------------
  // The environment.

  /** `NAME=value` cut at the first equals sign. */
  function Cut(entry: string): Option<(string, string)> {
    if entry == "" then None
    else if entry[0] == '=' then Some(("", entry[1..]))
    else
      match Cut(entry[1..])
      case None => None
      case Some(kv) => Some(([entry[0]] + kv.0, kv.1))
  }

  lemma {:induction false} CutMeaning(entry: string, key: string, value: string)
    ensures Cut(entry) == Some((key, value)) <==> entry == key + "=" + value && '=' !in key
    ensures Cut(entry).None? <==> '=' !in entry
  {
    if entry == "" {
    } else if entry[0] == '=' {
      if entry == key + "=" + value && '=' !in key {
        assert key == "";
      }
      assert entry == "" + "=" + entry[1..];
    } else {
      CutMeaning(entry[1..], if key == "" then "" else key[1..], value);
      if entry == key + "=" + value && '=' !in key {
        assert key != "" && entry[1..] == key[1..] + "=" + value;
        assert key == [entry[0]] + key[1..];
      }
      if Cut(entry) == Some((key, value)) {
        assert entry == [entry[0]] + entry[1..];
      }
    }
  }

  /** The value that the last entry for `key` gives; `contract` is how names are compared. */
  function Bound(contract: string -> string, env: seq<string>, key: string): Option<string> {
    if env == [] then None
    else
      match Cut(env[|env| - 1])
      case Some(kv) => if contract(kv.0) == key then Some(kv.1) else Bound(contract, env[..|env| - 1], key)
      case None => Bound(contract, env[..|env| - 1], key)
  }

  /** Some entry binds the name to the value, and no later one binds it. */
  ghost predicate LastBinds(contract: string -> string, env: seq<string>, key: string, value: string, i: nat) {
    && i < |env| && Cut(env[i]).Some? && contract(Cut(env[i]).value.0) == key && Cut(env[i]).value.1 == value
    && forall j :: i < j < |env| && Cut(env[j]).Some? ==> contract(Cut(env[j]).value.0) != key
  }

  lemma {:induction false} BoundMeaning(contract: string -> string, env: seq<string>, key: string)
    ensures Bound(contract, env, key).Some? ==>
              exists i: nat :: LastBinds(contract, env, key, Bound(contract, env, key).value, i)
    ensures Bound(contract, env, key).None? ==>
              forall i :: 0 <= i < |env| && Cut(env[i]).Some? ==> contract(Cut(env[i]).value.0) != key
  {
    if env != [] {
      var n := |env| - 1;
      var last := Cut(env[n]);
      if last.Some? && contract(last.value.0) == key {
        assert Bound(contract, env, key) == Some(last.value.1);
        assert LastBinds(contract, env, key, last.value.1, n);
      } else {
        BoundMeaning(contract, env[..n], key);
        if Bound(contract, env, key).Some? {
          var value := Bound(contract, env, key).value;
          var i: nat :| LastBinds(contract, env[..n], key, value, i);
          assert LastBinds(contract, env, key, value, i);
        }
      }
    }
  }

  /** The map holds each name's last binding; entries without an equals sign bind nothing. */
  ghost predicate Holds(contract: string -> string, env: seq<string>, values: map<string, string>) {
    forall key :: Bound(contract, env, key) == if key in values then Some(values[key]) else None
  }

  function ValuesOf(contract: string -> string, env: seq<string>): map<string, string> {
    if env == [] then map[]
    else
      var earlier := ValuesOf(contract, env[..|env| - 1]);
      match Cut(env[|env| - 1])
      case Some(kv) => earlier[contract(kv.0) := kv.1]
      case None => earlier
  }

  lemma {:induction false} ValuesAreLastBindings(contract: string -> string, env: seq<string>)
    ensures Holds(contract, env, ValuesOf(contract, env))
  {
    if env != [] {
      ValuesAreLastBindings(contract, env[..|env| - 1]);
    }
  }

  method RunEnvMap(contract: string -> string, env: seq<string>) returns (values: map<string, string>)
    ensures values == ValuesOf(contract, env) && Holds(contract, env, values)
  {
    values := map[];
    for i := 0 to |env|
      invariant values == ValuesOf(contract, env[..i])
    {
      assert env[..i + 1][..i] == env[..i];
      var cut := Cut(env[i]);
      if cut.Some? {
        values := values[contract(cut.value.0) := cut.value.1];
      }
    }
    assert env[..|env|] == env;
    ValuesAreLastBindings(contract, env);
  }

  datatype EnvItem = EnvItem(name: string, secret: bool)

  ghost function SecretsOf(contract: string -> string, items: seq<EnvItem>): set<string> {
    set i | 0 <= i < |items| && items[i].secret :: contract(items[i].name)
  }

  method SecretNames(contract: string -> string, items: seq<EnvItem>) returns (names: set<string>)
    ensures names == SecretsOf(contract, items)
  {
    names := {};
    for i := 0 to |items|
      invariant names == SecretsOf(contract, items[..i])
    {
      SecretsNext(contract, items, i);
      if items[i].secret {
        names := names + {contract(items[i].name)};
      }
    }
    assert items[..|items|] == items;
  }

  lemma SecretsNext(contract: string -> string, items: seq<EnvItem>, i: nat)
    requires i < |items|
    ensures SecretsOf(contract, items[..i + 1]) ==
            SecretsOf(contract, items[..i]) + if items[i].secret then {contract(items[i].name)} else {}
  {
    var more, names := items[..i + 1], SecretsOf(contract, items[..i]);
    forall k | 0 <= k < |more| && more[k].secret
      ensures contract(more[k].name) in names + if items[i].secret then {contract(items[i].name)} else {}
    {
      if k < i {
        assert items[..i][k] == more[k];
      }
    }
    forall k | 0 <= k < i && items[k].secret ensures contract(items[k].name) in SecretsOf(contract, more) {
      assert more[k] == items[k];
    }
    if items[i].secret {
      assert more[i] == items[i];
    }
  }

  // ---------------------------------------------------------------------
  // Interpolation.

  datatype Problem = MissingBrace | InvalidName(name: string) | SecretName(name: string) | MissingName(name: string)

  datatype Outcome = Url(text: string) | Bad(problem: Problem)

  predicate NameStart(c: char) {
    'A' <= c <= 'Z' || 'a' <= c <= 'z' || c == '_'
  }

  predicate NamePart(c: char) {
    NameStart(c) || '0' <= c <= '9'
  }

  predicate ValidName(name: string) {
    name != "" && NameStart(name[0]) && forall i :: 0 < i < |name| ==> NamePart(name[i])
  }

  method IsValidRunEnvKey(key: string) returns (valid: bool)
    ensures valid <==> ValidName(key)
  {
    if key == "" {
      return false;
    }
    for index := 0 to |key|
      invariant index > 0 ==> NameStart(key[0])
      invariant forall i :: 0 < i < index ==> NamePart(key[i])
    {
      var r := key[index];
      if index == 0 {
        if 'A' <= r <= 'Z' || 'a' <= r <= 'z' || r == '_' {
          continue;
        }
        return false;
      }
      if 'A' <= r <= 'Z' || 'a' <= r <= 'z' || '0' <= r <= '9' || r == '_' {
        continue;
      }
      return false;
    }
    return true;
  }

  /** What names mean: how they are compared, which are secret, and the values of those bound. */
  datatype Names = Names(contract: string -> string, secrets: set<string>, values: map<string, string>) {
    /** The text that stands for a placeholder, or what is wrong with it. */
    function Fill(name: string): Outcome {
      if !ValidName(name) then Bad(InvalidName(name))
      else if contract(name) in secrets then Bad(SecretName(name))
      else if contract(name) !in values then Bad(MissingName(name))
      else Url(values[contract(name)])
    }

    function FillPiece(p: Piece): Outcome {
      match p
      case Char(c) => Url([c])
      case Hole(name) => Fill(name)
    }
  }

  /** One outcome after another: the first problem decides. */
  function Then(first: Outcome, rest: Outcome): Outcome {
    if first.Bad? then first
    else if rest.Bad? then rest
    else Url(first.text + rest.text)
  }

  /** The value of a template: its pieces filled from the left. */
  function Eval(names: Names, r: Reading): Outcome
    decreases |r.pieces|
  {
    if r.pieces == [] then if r.open.Some? then Bad(MissingBrace) else Url("")
    else Then(names.FillPiece(r.pieces[0]), Eval(names, r.(pieces := r.pieces[1..])))
  }

  lemma ThenThen(a: string, b: Outcome, rest: Outcome)
    ensures Then(Url(a), Then(b, rest)) == Then(Then(Url(a), b), rest)
  {
    if b.Url? && rest.Url? {
      assert a + (b.text + rest.text) == a + b.text + rest.text;
    }
  }

  lemma EvalPrefixed(names: Names, p: Piece, r: Reading)
    ensures Eval(names, Prefixed(p, r)) == Then(names.FillPiece(p), Eval(names, r))
  {
    assert ([p] + r.pieces)[1..] == r.pieces;
  }

  /** So far `text` was produced; the rest of the template starts at `index`. */
  ghost predicate Building(names: Names, template: string, index: nat, text: string) {
    index <= |template| && Eval(names, Read(template)) == Then(Url(text), Eval(names, Read(template[index..])))
  }

  lemma BuildChar(names: Names, template: string, index: nat, text: string)
    requires Building(names, template, index, text) && index < |template| && !Opens(template[index..])
    ensures Building(names, template, index + 1, text + [template[index]])
  {
    assert template[index..][1..] == template[index + 1..];
    EvalAfter(names, text, Char(template[index]), Read(template[index + 1..]));
  }

  lemma ReadClosed(rest: string, end: nat, name: string, tail: string)
    requires Opens(rest) && BraceIn(rest[2..]) == Some(end)
    requires end + 3 <= |rest| && name == rest[2..2 + end] && tail == rest[end + 3..]
    ensures Read(rest) == Prefixed(Hole(name), Read(tail))
  {}

  lemma ReadAtHole(template: string, index: nat, end: nat, name: string, next: nat)
    requires index <= |template| && Opens(template[index..]) && BraceIn(template[index + 2..]) == Some(end)
    requires index + end + 3 == next <= |template| && name == template[index + 2..index + 2 + end]
    ensures Read(template[index..]) == Prefixed(Hole(name), Read(template[next..]))
  {
    var rest := template[index..];
    assert rest[2..] == template[index + 2..];
    assert rest[2..2 + end] == name;
    assert rest[end + 3..] == template[next..];
    ReadClosed(rest, end, name, template[next..]);
  }

  lemma EvalAfter(names: Names, text: string, p: Piece, r: Reading)
    ensures Then(Url(text), Eval(names, Prefixed(p, r))) == Then(Then(Url(text), names.FillPiece(p)), Eval(names, r))
  {
    EvalPrefixed(names, p, r);
    ThenThen(text, names.FillPiece(p), Eval(names, r));
  }

  lemma BuildHole(names: Names, template: string, index: nat, text: string, end: nat, name: string, next: nat)
    requires Building(names, template, index, text) && Opens(template[index..]) &&
             BraceIn(template[index + 2..]) == Some(end)
    requires index + end + 3 == next <= |template| && name == template[index + 2..index + 2 + end]
    ensures names.Fill(name).Url? ==> Building(names, template, next, text + names.Fill(name).text)
    ensures names.Fill(name).Bad? ==> Eval(names, Read(template)) == names.Fill(name)
  {
    ReadAtHole(template, index, end, name, next);
    EvalAfter(names, text, Hole(name), Read(template[next..]));
  }

  lemma BuildUnclosed(names: Names, template: string, index: nat, text: string)
    requires Building(names, template, index, text) && Opens(template[index..]) && BraceIn(template[index + 2..]).None?
    ensures Eval(names, Read(template)) == Bad(MissingBrace)
  {
    assert template[index..][2..] == template[index + 2..];
  }

  /** Fills a template from the environment of the target. */
  method InterpolateRunReadyUrl(contract: string -> string, items: seq<EnvItem>, template: string, env: seq<string>)
    returns (outcome: Outcome)
    ensures outcome == Eval(Names(contract, SecretsOf(contract, items), ValuesOf(contract, env)), Read(template))
    ensures Interprets(Read(template), name => Secret(contract, items, name),
                       name => Bound(contract, env, contract(name)), outcome)
  {
    var values := RunEnvMap(contract, env);
    var secretNames := SecretNames(contract, items);
    outcome := Fill(contract, secretNames, values, template);
    InterpretsTarget(contract, items, env, Read(template));
  }

  /** Looks a placeholder's name up. */
  method FillHole(names: Names, name: string) returns (filled: Outcome)
    ensures filled == names.Fill(name)
  {
    var valid := IsValidRunEnvKey(name);
    if !valid {
      return Bad(InvalidName(name));
    }
    var contractKey := names.contract(name);
    if contractKey in names.secrets {
      return Bad(SecretName(name));
    }
    if contractKey !in names.values {
      return Bad(MissingName(name));
    }
    return Url(names.values[contractKey]);
  }

  lemma OpensAt(template: string, index: nat)
    requires index < |template|
    ensures Opens(template[index..]) <==> index + 1 < |template| && template[index] == '$' && template[index + 1] == '{'
  {}

  /** A placeholder in the template: its outcome if it is bad, or the index and text after it. */
  method FillOpened(names: Names, template: string, index0: nat, builder0: string)
    returns (outcome: Option<Outcome>, index: nat, builder: string)
    requires Building(names, template, index0, builder0) && Opens(template[index0..])
    ensures outcome.Some? ==> outcome.value == Eval(names, Read(template))
    ensures outcome.None? ==> Building(names, template, index, builder) && index > index0
  {
    outcome, index, builder := None, index0, builder0;
    var end := BraceIn(template[index + 2..]);
    if end.None? {
      BuildUnclosed(names, template, index, builder);
      return Some(Bad(MissingBrace)), index, builder;
    }
    var name, next := template[index + 2..index + 2 + end.value], index + end.value + 3;
    BuildHole(names, template, index, builder, end.value, name, next);
    var filled := FillHole(names, name);
    if filled.Bad? {
      return Some(filled), index, builder;
    }
    builder := builder + filled.text;
    index := next;
  }

  /** One step of the scan: an outcome that ends it, or the next index and text. */
  method FillNext(names: Names, template: string, index0: nat, builder0: string)
    returns (outcome: Option<Outcome>, index: nat, builder: string)
    requires Building(names, template, index0, builder0) && index0 < |template|
    ensures outcome.Some? ==> outcome.value == Eval(names, Read(template))
    ensures outcome.None? ==> Building(names, template, index, builder) && index > index0
  {
    OpensAt(template, index0);
    if template[index0] != '$' || index0 + 1 >= |template| || template[index0 + 1] != '{' {
      BuildChar(names, template, index0, builder0);
      return None, index0 + 1, builder0 + [template[index0]];
    }
    outcome, index, builder := FillOpened(names, template, index0, builder0);
  }

  method Fill(contract: string -> string, secretNames: set<string>, values: map<string, string>, template: string)
    returns (outcome: Outcome)
    ensures outcome == Eval(Names(contract, secretNames, values), Read(template))
  {
    var names := Names(contract, secretNames, values);
    var builder, index := "", 0;
    BuildStarts(names, template);
    while index < |template|
      invariant Building(names, template, index, builder)
      decreases |template| - index
    {
      var ended;
      ended, index, builder := FillNext(names, template, index, builder);
      if ended.Some? {
        return ended.value;
      }
    }
    BuildEnds(names, template, builder);
    outcome := Url(builder);
  }

  lemma BuildStarts(names: Names, template: string)
    ensures Building(names, template, 0, "")
  {
    assert template[0..] == template;
    var whole := Eval(names, Read(template));
    assert whole.Url? ==> "" + whole.text == whole.text;
  }

  lemma BuildEnds(names: Names, template: string, text: string)
    requires Building(names, template, |template|, text)
    ensures Eval(names, Read(template)) == Url(text)
  {
    assert template[|template|..] == "" && text + "" == text;
  }

  // ---------------------------------------------------------------------
  // What interpolation promises.

  /** The name is that of a secret item of the target. */
  ghost predicate Secret(contract: string -> string, items: seq<EnvItem>, name: string) {
    exists item :: item in items && item.secret && contract(item.name) == contract(name)
  }

  /** The pieces with each placeholder replaced by its name's value, once. */
  function Substituted(pieces: seq<Piece>, value: string -> Option<string>): string {
    if pieces == [] then ""
    else
      var text := match pieces[0]
                  case Char(c) => [c]
                  case Hole(name) => match value(name) case Some(v) => v case None => "";
      text + Substituted(pieces[1..], value)
  }

  /** A placeholder can be filled: its name is valid, not secret, and bound. */
  predicate Fillable(secret: string -> bool, value: string -> Option<string>, p: Piece) {
    p.Hole? ==> ValidName(p.name) && !secret(p.name) && value(p.name).Some?
  }

  /** Where the template first goes wrong, and how: at a placeholder whose name is invalid, or else secret, or else
  not bound; or at the end, if a placeholder is unclosed there. */
  ghost predicate FirstProblem(r: Reading, secret: string -> bool, value: string -> Option<string>, k: nat,
                               problem: Problem) {
    && k <= |r.pieces| && (forall i :: 0 <= i < k ==> Fillable(secret, value, r.pieces[i]))
    && if k == |r.pieces| then r.open.Some? && problem == MissingBrace
       else
         && r.pieces[k].Hole?
         && var name := r.pieces[k].name;
            if !ValidName(name) then problem == InvalidName(name)
            else if secret(name) then problem == SecretName(name)
            else value(name).None? && problem == MissingName(name)
  }

  /** The outcome that a reading should have: the substituted text if every placeholder can be filled, otherwise
  the leftmost problem. */
  ghost predicate Interprets(r: Reading, secret: string -> bool, value: string -> Option<string>, outcome: Outcome) {
    match outcome
    case Url(text) =>
      && r.open.None? && (forall i :: 0 <= i < |r.pieces| ==> Fillable(secret, value, r.pieces[i]))
      && text == Substituted(r.pieces, value)
    case Bad(problem) => exists k: nat :: FirstProblem(r, secret, value, k, problem)
  }

  /** Which names are secret, and the values of those bound. */
  function SecretIn(names: Names): string -> bool {
    name => names.contract(name) in names.secrets
  }

  function ValueIn(names: Names): string -> Option<string> {
    name => if names.contract(name) in names.values then Some(names.values[names.contract(name)]) else None
  }

  lemma {:induction false} EvalMeaning(names: Names, r: Reading)
    ensures Interprets(r, SecretIn(names), ValueIn(names), Eval(names, r))
    decreases |r.pieces|
  {
    var secret, value := SecretIn(names), ValueIn(names);
    if r.pieces == [] {
      assert r.open.Some? ==> FirstProblem(r, secret, value, 0, MissingBrace);
    } else {
      var p, rest := r.pieces[0], r.(pieces := r.pieces[1..]);
      EvalMeaning(names, rest);
      assert Fillable(secret, value, p) <==> names.FillPiece(p).Url?;
      if !Fillable(secret, value, p) {
        assert FirstProblem(r, secret, value, 0, names.FillPiece(p).problem);
      } else if Eval(names, rest).Bad? {
        var problem := Eval(names, rest).problem;
        var k: nat :| FirstProblem(rest, secret, value, k, problem);
        assert FirstProblem(r, secret, value, k + 1, problem);
      }
    }
  }

  /** Only what is secret and what is bound matters. */
  lemma {:induction false} SameSubstituted(pieces: seq<Piece>, value: string -> Option<string>,
                                           other: string -> Option<string>)
    requires forall name :: value(name) == other(name)
    ensures Substituted(pieces, value) == Substituted(pieces, other)
  {
    if pieces != [] {
      SameSubstituted(pieces[1..], value, other);
    }
  }

  /** The interpolation of a target: the secrets are its items', the values the last bindings of its environment. */
  lemma InterpretsTarget(contract: string -> string, items: seq<EnvItem>, env: seq<string>, r: Reading)
    ensures Interprets(r, name => Secret(contract, items, name), name => Bound(contract, env, contract(name)),
                       Eval(Names(contract, SecretsOf(contract, items), ValuesOf(contract, env)), r))
  {
    var names := Names(contract, SecretsOf(contract, items), ValuesOf(contract, env));
    var secret := name => Secret(contract, items, name);
    var value := name => Bound(contract, env, contract(name));
    EvalMeaning(names, r);
    ValuesAreLastBindings(contract, env);
    forall name ensures SecretIn(names)(name) == secret(name) && ValueIn(names)(name) == value(name) {
      SecretIsItem(contract, items, name);
    }
    SameSubstituted(r.pieces, ValueIn(names), value);
    if Eval(names, r).Bad? {
      var problem := Eval(names, r).problem;
      var k: nat :| FirstProblem(r, SecretIn(names), ValueIn(names), k, problem);
      assert FirstProblem(r, secret, value, k, problem);
    }
  }

  lemma SecretIsItem(contract: string -> string, items: seq<EnvItem>, name: string)
    ensures contract(name) in SecretsOf(contract, items) <==> Secret(contract, items, name)
  {
    if i :| 0 <= i < |items| && items[i].secret && contract(items[i].name) == contract(name) {
      assert items[i] in items;
    }
  }

  /** Any well-formed sequence of characters and placeholders, printed and interpolated, comes to its substituted
  pieces: what is substituted is never read again. */
  lemma PrintedTemplate(names: Names, pieces: seq<Piece>)
    requires WellFormed(Reading(pieces, None))
    requires forall i :: 0 <= i < |pieces| ==> Fillable(SecretIn(names), ValueIn(names), pieces[i])
    ensures Eval(names, Read(Print(Reading(pieces, None)))) == Url(Substituted(pieces, ValueIn(names)))
  {
    ReadIsOnly(Reading(pieces, None));
    EvalMeaning(names, Reading(pieces, None));
  }

  lemma ReadChar(template: string, c: char, rest: string)
    requires template == [c] + rest && c != '$'
    ensures Read(template) == Prefixed(Char(c), Read(rest))
  {
    assert template[1..] == rest;
  }

  lemma PlainChar(names: Names, c: char, rest: string)
    requires c != '$'
    ensures Eval(names, Read([c] + rest)) == Then(Url([c]), Eval(names, Read(rest)))
  {
    ReadChar([c] + rest, c, rest);
    EvalPrefixed(names, Char(c), Read(rest));
  }

  lemma {:induction false} PlainText(names: Names, text: string, rest: string)
    requires '$' !in text
    ensures Eval(names, Read(text + rest)) == Then(Url(text), Eval(names, Read(rest)))
  {
    var after := Eval(names, Read(rest));
    if text == "" {
      assert text + rest == rest && (after.Url? ==> "" + after.text == after.text);
    } else {
      var c, more := text[0], text[1..];
      assert c in text && forall d :: d in more ==> d in text;
      assert text == [c] + more && text + rest == [c] + (more + rest);
      PlainText(names, more, rest);
      PlainChar(names, c, more + rest);
      ThenThen([c], Url(more), after);
    }
  }

  lemma HoleValue(names: Names, name: string, value: string, rest: string)
    requires ValidName(name) && names.contract(name) !in names.secrets
    requires names.contract(name) in names.values && names.values[names.contract(name)] == value
    ensures Eval(names, Read("${" + name + "}" + rest)) == Then(Url(value), Eval(names, Read(rest)))
  {
    ReadHole(name, rest);
    EvalPrefixed(names, Hole(name), Read(rest));
  }

  lemma FiveParts<T>(a: seq<T>, b: seq<T>, c: seq<T>, d: seq<T>, e: seq<T>)
    ensures a + b + c + d + e == a + (b + c + d + e)
  {}

  /** The first placeholder of a template gives way to its value, and the rest to what it comes to by itself. */
  lemma PlaceholderIsReplaced(names: Names, before: string, name: string, value: string, rest: string)
    requires '$' !in before && ValidName(name) && names.contract(name) !in names.secrets
    requires names.contract(name) in names.values && names.values[names.contract(name)] == value
    ensures var after := Eval(names, Read(rest));
            Eval(names, Read(before + "${" + name + "}" + rest)) ==
            if after.Url? then Url(before + value + after.text) else after
  {
    FiveParts(before, "${", name, "}", rest);
    PlainText(names, before, "${" + name + "}" + rest);
    HoleValue(names, name, value, rest);
    ThenThen(before, Url(value), Eval(names, Read(rest)));
  }

  const CAPITALS := "ABCDEFGHIJKLMNOPQRSTUVWXYZ"
  const LETTERS := "abcdefghijklmnopqrstuvwxyz"
  const DIGITS := "0123456789"

  lemma InRun(alphabet: string, first: char, c: char)
    requires forall i :: 0 <= i < |alphabet| ==> alphabet[i] as int == first as int + i
    ensures c in alphabet <==> first as int <= c as int < first as int + |alphabet|
  {
    if first as int <= c as int < first as int + |alphabet| {
      assert alphabet[c as int - first as int] == c;
    }
  }

  predicate Initial(c: char) {
    c in CAPITALS || c in LETTERS || c == '_'
  }

  lemma InitialMeaning(c: char)
    ensures Initial(c) <==> NameStart(c)
  {
    InRun(CAPITALS, 'A', c);
    InRun(LETTERS, 'a', c);
  }

  /** Names are made of letters, underscores and digits, and do not start with a digit. */
  lemma ValidNameMeaning(name: string)
    ensures ValidName(name) <==>
            name != "" && Initial(name[0]) && forall i :: 0 <= i < |name| ==> Initial(name[i]) || name[i] in DIGITS
  {
    forall c ensures (Initial(c) <==> NameStart(c)) && (c in DIGITS <==> '0' <= c <= '9') {
      InitialMeaning(c);
      InRun(DIGITS, '0', c);
    }
  }
}
