/** `.env` reading and variable interpolation (server/src/domain/host-ports.ts): what every name in
    a compose file means. The rewriter has to keep exactly this meaning. */
module HostPorts {
  import opened Text

  type Env = map<string, string>

  const EXPORT := "export "

  /** Strips one pair of matching quotes. */
  function Unquote(value: string): string {
    if |value| >= 2 && value[0] == value[|value| - 1] && (value[0] == '"' || value[0] == '\'')
    then value[1..|value| - 1]
    else value
  }

  type Assignment = Option<(string, string)>

  /** What a trimmed line without `export ` assigns: everything behind its first `=`. */
  function BodyAssignment(body: string): Assignment {
    var eqIndex := IndexOf(body, '=');
    if eqIndex == |body| || Trim(body[..eqIndex]) == "" then None
    else Some((Trim(body[..eqIndex]), Unquote(Trim(body[eqIndex + 1..]))))
  }

  /** What one line of a `.env` file assigns. */
  function LineAssignment(rawLine: string): Assignment {
    var line := Trim(rawLine);
    if line == "" || line[0] == '#' then None
    else BodyAssignment(if EXPORT <= line then Trim(line[|EXPORT|..]) else line)
  }

  lemma LineIsBody(line: string)
    requires line != "" && Trim(line) == line && line[0] != '#' && !(EXPORT <= line)
    ensures LineAssignment(line) == BodyAssignment(line)
  {
  }

  function LineAssignments(lines: seq<string>): seq<Assignment> {
    seq(|lines|, i requires 0 <= i < |lines| => LineAssignment(lines[i]))
  }

  lemma LineAssignmentsAppend(first: seq<string>, second: seq<string>)
    ensures LineAssignments(first + second) == LineAssignments(first) + LineAssignments(second)
  {
  }

  /** The map a list of assignments builds, in order. */
  function Assigned(list: seq<Assignment>): Env {
    if list == [] then map[]
    else
      var before := Assigned(list[..|list| - 1]);
      match list[|list| - 1]
      case Some((key, value)) => before[key := value]
      case None => before
  }

  function EnvAssignments(text: string): Env {
    Assigned(LineAssignments(Split(text, '\n')))
  }

  predicate AssignsKey(assignment: Assignment, key: string) {
    assignment.Some? && assignment.value.0 == key
  }

  /** The last assignment of `key` in a list. */
  function LastFor(list: seq<Assignment>, key: string): (i: int)
    ensures -1 <= i < |list|
    ensures i >= 0 ==> AssignsKey(list[i], key)
    ensures forall j :: i < j < |list| ==> !AssignsKey(list[j], key)
  {
    if list == [] then -1
    else if AssignsKey(list[|list| - 1], key) then |list| - 1
    else LastFor(list[..|list| - 1], key)
  }

  /** A key is read exactly when some line assigns it, and then the last such line gives the value. */
  lemma {:induction false} LastAssignmentWins(list: seq<Assignment>, key: string)
    ensures var last := LastFor(list, key);
      Lookup(Assigned(list), key) == if last < 0 then None else Some(list[last].value.1)
  {
    if list != [] {
      LastAssignmentWins(list[..|list| - 1], key);
    }
  }

  /** Reading two blocks: the second block's assignments override the first's. */
  lemma {:induction false} AssignedAppend(first: seq<Assignment>, second: seq<Assignment>)
    ensures Assigned(first + second) == Assigned(first) + Assigned(second)
  {
    if second == [] {
      assert first + second == first;
    } else {
      var init := second[..|second| - 1];
      assert (first + second)[..|first + second| - 1] == first + init;
      AssignedAppend(first, init);
    }
  }

  method ParseEnvAssignments(envContent: string) returns (result: Env)
    ensures result == EnvAssignments(envContent)
  {
    result := map[];
    var lines := Split(envContent, '\n');
    for i := 0 to |lines|
      invariant result == Assigned(LineAssignments(lines)[..i])
    {
      assert LineAssignments(lines)[..i + 1][..i] == LineAssignments(lines)[..i];
      match LineAssignment(lines[i]) {
        case Some((key, value)) => result := result[key := value];
        case None =>
      }
    }
    assert LineAssignments(lines)[..|lines|] == LineAssignments(lines);
  }

  datatype Operator = Bare | ColonDash | Dash

  datatype Token =
    | Literal(c: char)
    | Reference(name: string, operator: Operator, defaultText: string)

  /** The end of a braced reference, from just behind its name: the closing brace, or a default. */
  function BracedTail(name: string, tail: string): (r: Option<(Token, nat)>)
    ensures r.Some? ==> r.value.0.Reference? && r.value.0.name == name && 1 <= r.value.1 <= |tail|
  {
    if tail == "" then None
    else if tail[0] == '}' then Some((Reference(name, Bare, ""), 1))
    else
      var skip := if ":-" <= tail then 2 else if tail[0] == '-' then 1 else 0;
      var close := if skip == 0 then |tail| else skip + IndexOf(tail[skip..], '}');
      if close >= |tail| then None
      else Some((Reference(name, if skip == 2 then ColonDash else Dash, tail[skip..close]), close + 1))
  }

  /** The reference `s` starts with (`${NAME}`, `${NAME:-x}`, `${NAME-x}` or `$NAME`) and its length. */
  function ScanReference(s: string): (r: Option<(Token, nat)>)
    ensures r.Some? ==> r.value.0.Reference? && 1 <= r.value.1 <= |s|
  {
    if |s| < 2 || s[0] != '$' then None
    else if s[1] == '{' then
      var name := NamePrefix(s[2..]);
      if name == "" then None
      else
        match BracedTail(name, s[2 + |name|..])
        case None => None
        case Some((token, length)) => Some((token, 2 + |name| + length))
    else
      var name := NamePrefix(s[1..]);
      if name == "" then None else Some((Reference(name, Bare, ""), 1 + |name|))
  }

  function Tokens(s: string): seq<Token>
    decreases |s|
  {
    if s == "" then []
    else
      match ScanReference(s)
      case Some((token, length)) => [token] + Tokens(s[length..])
      case None => [Literal(s[0])] + Tokens(s[1..])
  }

  /** What one token stands for; `None` when it cannot be resolved. */
  function Resolve(token: Token, env: Env): Option<string> {
    match token
    case Literal(c) => Some([c])
    case Reference(name, ColonDash, defaultText) =>
      Some(if name in env && env[name] != "" then env[name] else defaultText)
    case Reference(name, Dash, defaultText) => Some(if name in env then env[name] else defaultText)
    case Reference(name, Bare, _) => if name in env then Some(env[name]) else None
  }

  function ResolveAll(tokens: seq<Token>, env: Env): Option<string> {
    if tokens == [] then Some("")
    else
      match (ResolveAll(tokens[..|tokens| - 1], env), Resolve(tokens[|tokens| - 1], env))
      case (Some(before), Some(last)) => Some(before + last)
      case _ => None
  }

  function Interpolate(raw: string, env: Env): Option<string> {
    ResolveAll(Tokens(raw), env)
  }

  method InterpolateEnv(raw: string, env: Env) returns (result: Option<string>)
    ensures result == Interpolate(raw, env)
  {
    hide Tokens, Resolve;
    var unresolved := false;
    var text := "";
    var tokens := Tokens(raw);
    for i := 0 to |tokens|
      invariant ResolveAll(tokens[..i], env) == if unresolved then None else Some(text)
    {
      assert tokens[..i + 1][..i] == tokens[..i];
      match Resolve(tokens[i], env) {
        case Some(value) => text := text + value;
        case None => unresolved := true;
      }
    }
    assert tokens[..|tokens|] == tokens;
    result := if unresolved then None else Some(text);
  }

  /** The names a text references, matched as widely as the rewriter does: `$` or `${` and a name. */
  function ReferencedNames(text: string): set<string> {
    if text == "" then {}
    else ReferenceAt(text) + ReferencedNames(text[1..])
  }

  /** The name referenced at the very start of a text, if any. */
  function ReferenceAt(text: string): set<string> {
    if text == "" || text[0] != '$' then {}
    else
      var name := NamePrefix(if |text| >= 2 && text[1] == '{' then text[2..] else text[1..]);
      if name == "" then {} else {name}
  }

  /** At `i` stands `$name` or `${name`, and the name ends there. */
  predicate RefersAt(text: string, name: string, i: int) {
    0 <= i < |text| && text[i] == '$' &&
    var at := if i + 1 < |text| && text[i + 1] == '{' then i + 2 else i + 1;
    var end := at + |name|;
    IsName(name) && end <= |text| && text[at..end] == name && (end < |text| ==> !IsIdentChar(text[end]))
  }

  /** Exactly which names a text references. */
  lemma {:induction false} ReferencedIff(text: string, name: string)
    ensures name in ReferencedNames(text) <==> exists i :: RefersAt(text, name, i)
  {
    if text != "" {
      ReferencedIff(text[1..], name);
      ReferenceAtIff(text, name);
      hide RefersAt, ReferenceAt;
      forall i | 0 <= i
        ensures RefersAt(text, name, i + 1) <==> RefersAt(text[1..], name, i)
      {
        RefersInRest(text, name, i);
      }
      if i :| RefersAt(text, name, i) {
        RefersWithin(text, name, i);
        if i > 0 {
          assert RefersAt(text[1..], name, i - 1);
        }
      }
      if i :| RefersAt(text[1..], name, i) {
        RefersWithin(text[1..], name, i);
        assert RefersAt(text, name, i + 1);
      }
    } else {
      assert forall i :: !RefersAt(text, name, i);
    }
  }

  lemma RefersWithin(text: string, name: string, i: int)
    requires RefersAt(text, name, i)
    ensures 0 <= i < |text|
  {
  }

  lemma RefersInRest(text: string, name: string, i: nat)
    requires text != ""
    ensures RefersAt(text, name, i + 1) <==> RefersAt(text[1..], name, i)
  {
    var rest := text[1..];
    assert forall k :: 0 <= k < |rest| ==> rest[k] == text[k + 1];
    assert forall a, b :: 0 <= a <= b <= |rest| ==> rest[a..b] == text[a + 1..b + 1];
  }

  lemma ReferenceAtIff(text: string, name: string)
    requires text != ""
    ensures name in ReferenceAt(text) <==> RefersAt(text, name, 0)
  {
    var at := if |text| >= 2 && text[1] == '{' then 2 else 1;
    if text[0] == '$' && at <= |text| {
      var rest := text[at..];
      PrefixNameIff(rest, name);
      assert |name| <= |rest| ==> text[at..at + |name|] == rest[..|name|];
      assert |name| < |rest| ==> text[at + |name|] == rest[|name|];
    }
  }

  lemma PrefixNameIff(s: string, name: string)
    ensures name == NamePrefix(s) && name != "" <==>
      IsName(name) && |name| <= |s| && s[..|name|] == name && (|name| < |s| ==> !IsIdentChar(s[|name|]))
  {
    if IsName(name) && |name| <= |s| && s[..|name|] == name && (|name| < |s| ==> !IsIdentChar(s[|name|])) {
      assert s == name + s[|name|..];
      IdentRunIs(name, s[|name|..]);
    }
  }

  lemma {:induction false} ReferencedInSuffix(text: string, n: nat)
    requires n <= |text|
    ensures ReferencedNames(text[n..]) <= ReferencedNames(text)
  {
    if n > 0 {
      ReferencedInSuffix(text[1..], n - 1);
      assert text[1..][n - 1..] == text[n..];
    }
  }

  /** Every reference interpolation acts on is among the referenced names. */
  lemma {:induction false} TokensAreReferenced(s: string)
    ensures forall t :: t in Tokens(s) && t.Reference? ==> t.name in ReferencedNames(s)
    decreases |s|
  {
    if s != "" {
      match ScanReference(s)
      case Some((token, length)) =>
        assert token.name in ReferenceAt(s);
        TokensAreReferenced(s[length..]);
        ReferencedInSuffix(s, length);
      case None =>
        TokensAreReferenced(s[1..]);
    }
  }

  /** Interpolation looks at the referenced names and at nothing else. */
  lemma InterpolationNeedsOnlyReferences(raw: string, env: Env, env': Env)
    requires forall name :: name in ReferencedNames(raw) ==> Lookup(env, name) == Lookup(env', name)
    ensures Interpolate(raw, env) == Interpolate(raw, env')
  {
    TokensAreReferenced(raw);
    SameLookups(Tokens(raw), env, env');
  }

  lemma {:induction false} SameLookups(tokens: seq<Token>, env: Env, env': Env)
    requires forall t :: t in tokens && t.Reference? ==> Lookup(env, t.name) == Lookup(env', t.name)
    ensures ResolveAll(tokens, env) == ResolveAll(tokens, env')
  {
    if tokens != [] {
      SameLookups(tokens[..|tokens| - 1], env, env');
      var last := tokens[|tokens| - 1];
      assert last in tokens;
      assert last.Reference? ==> Lookup(env, last.name) == Lookup(env', last.name);
    }
  }

  // ----- What interpolation does, form by form -----

  /** One text behind another; unresolved if either is. */
  function Joined(first: Option<string>, rest: Option<string>): Option<string> {
    if first.Some? && rest.Some? then Some(first.value + rest.value) else None
  }

  lemma {:induction false} ResolveCons(token: Token, tokens: seq<Token>, env: Env)
    ensures ResolveAll([token] + tokens, env) == Joined(Resolve(token, env), ResolveAll(tokens, env))
  {
    hide Resolve;
    var all := [token] + tokens;
    if tokens == [] {
      assert all == [token];
      SingleToken(token, env);
      assert Resolve(token, env).Some? ==> Resolve(token, env).value + "" == Resolve(token, env).value;
    } else {
      var init, last := tokens[..|tokens| - 1], tokens[|tokens| - 1];
      assert all[..|all| - 1] == [token] + init && all[|all| - 1] == last;
      ResolveCons(token, init, env);
      var x, y, z := Resolve(token, env), ResolveAll(init, env), Resolve(last, env);
      assert x.Some? && y.Some? && z.Some? ==> x.value + y.value + z.value == x.value + (y.value + z.value);
    }
  }

  /** A reference at the start of a text is replaced, whatever follows. */
  lemma InterpolateScanned(s: string, token: Token, length: nat, env: Env)
    requires s != "" && ScanReference(s) == Some((token, length))
    ensures Interpolate(s, env) == Joined(Resolve(token, env), Interpolate(s[length..], env))
  {
    ResolveCons(token, Tokens(s[length..]), env);
  }

  /** Everything else is copied. */
  lemma InterpolateCopies(c: char, rest: string, env: Env)
    requires ScanReference([c] + rest).None?
    ensures Interpolate([c] + rest, env) == Joined(Some([c]), Interpolate(rest, env))
  {
    assert ([c] + rest)[1..] == rest;
    ResolveCons(Literal(c), Tokens(rest), env);
  }

  lemma NoReference(c: char, rest: string)
    requires c != '$'
    ensures ScanReference([c] + rest).None?
  {
  }

  /** A text without `$` is copied as it is, whatever follows. */
  lemma {:induction false} InterpolateBehind(before: string, rest: string, env: Env)
    requires '$' !in before
    ensures Interpolate(before + rest, env) == Joined(Some(before), Interpolate(rest, env))
  {
    if before == "" {
      assert before + rest == rest;
      assert Interpolate(rest, env).Some? ==> "" + Interpolate(rest, env).value == Interpolate(rest, env).value;
    } else {
      hide ScanReference, Interpolate;
      assert before + rest == [before[0]] + (before[1..] + rest);
      NoReference(before[0], before[1..] + rest);
      InterpolateCopies(before[0], before[1..] + rest, env);
      InterpolateBehind(before[1..], rest, env);
      var after := Interpolate(rest, env);
      assert after.Some? ==> [before[0]] + (before[1..] + after.value) == before + after.value;
    }
  }

  lemma ScanBraced(name: string, tail: string)
    requires IsName(name) && (tail == "" || !IsIdentChar(tail[0]))
    ensures var s := "${" + name + tail;
      ScanReference(s) ==
      match BracedTail(name, tail)
      case None => None
      case Some((token, length)) => Some((token, 2 + |name| + length))
  {
    hide BracedTail;
    var s := "${" + name + tail;
    assert s[2..] == name + tail && name != "";
    IdentRunIs(name, tail);
    assert NamePrefix(s[2..]) == name && s[2 + |name|..] == tail;
  }

  lemma BracedIs(name: string, tail: string, token: Token, rest: string, env: Env)
    requires IsName(name) && tail != "" && !IsIdentChar(tail[0]) && |rest| <= |tail|
    requires BracedTail(name, tail) == Some((token, |tail| - |rest|)) && tail[|tail| - |rest|..] == rest
    ensures Interpolate("${" + name + tail, env) == Joined(Resolve(token, env), Interpolate(rest, env))
  {
    hide BracedTail, Resolve, Interpolate, IsName;
    var s := "${" + name + tail;
    ScanBraced(name, tail);
    InterpolateScanned(s, token, |s| - |rest|, env);
    assert s[|s| - |rest|..] == rest;
  }

  /** `${NAME}`: the value, which may be empty; without one the text cannot be resolved. */
  lemma BracedReference(name: string, rest: string, env: Env)
    requires IsName(name)
    ensures Interpolate("${" + name + "}" + rest, env) ==
      if name in env then Joined(Some(env[name]), Interpolate(rest, env)) else None
  {
    var tail := "}" + rest;
    assert "${" + name + "}" + rest == "${" + name + tail;
    assert tail[1..] == rest;
    BracedIs(name, tail, Reference(name, Bare, ""), rest, env);
    hide Interpolate;
  }

  lemma DefaultTail(name: string, operator: string, defaultText: string, rest: string)
    requires (operator == ":-" || operator == "-") && '}' !in defaultText
    ensures BracedTail(name, operator + defaultText + "}" + rest) ==
      Some((Reference(name, if operator == "-" then Dash else ColonDash, defaultText), |operator| + |defaultText| + 1))
  {
    var tail := operator + defaultText + "}" + rest;
    var skip := |operator|;
    assert tail[skip..] == defaultText + ['}'] + rest;
    IndexOfIs(defaultText, '}', rest);
    assert tail[skip..skip + |defaultText|] == defaultText;
    assert ":-" <= tail <==> operator == ":-" by {
      assert tail[0] == operator[0];
    }
  }

  lemma DefaultReference(name: string, operator: string, defaultText: string, rest: string, env: Env)
    requires IsName(name) && (operator == ":-" || operator == "-") && '}' !in defaultText
    ensures Interpolate("${" + name + operator + defaultText + "}" + rest, env) ==
      Joined(Resolve(Reference(name, if operator == "-" then Dash else ColonDash, defaultText), env),
             Interpolate(rest, env))
  {
    hide BracedTail, Resolve, Interpolate;
    var tail := operator + defaultText + "}" + rest;
    assert "${" + name + operator + defaultText + "}" + rest == "${" + name + tail;
    assert tail[0] == operator[0] && tail[|tail| - |rest|..] == rest;
    DefaultTail(name, operator, defaultText, rest);
    BracedIs(name, tail, Reference(name, if operator == "-" then Dash else ColonDash, defaultText), rest, env);
  }

  /** `${NAME:-default}`: an unset and an empty variable give the default. */
  lemma ColonDashReference(name: string, defaultText: string, rest: string, env: Env)
    requires IsName(name) && '}' !in defaultText
    ensures Interpolate("${" + name + ":-" + defaultText + "}" + rest, env) ==
      Joined(Some(if name in env && env[name] != "" then env[name] else defaultText), Interpolate(rest, env))
  {
    DefaultReference(name, ":-", defaultText, rest, env);
    hide Interpolate;
  }

  /** `${NAME-default}`: only an unset variable gives the default. */
  lemma DashReference(name: string, defaultText: string, rest: string, env: Env)
    requires IsName(name) && '}' !in defaultText
    ensures Interpolate("${" + name + "-" + defaultText + "}" + rest, env) ==
      Joined(Some(if name in env then env[name] else defaultText), Interpolate(rest, env))
  {
    DefaultReference(name, "-", defaultText, rest, env);
    hide Interpolate;
  }

  /** `$NAME`, up to the first character that cannot belong to the name. */
  lemma BareReference(name: string, rest: string, env: Env)
    requires IsName(name) && (rest == "" || !IsIdentChar(rest[0]))
    ensures Interpolate("$" + name + rest, env) ==
      if name in env then Joined(Some(env[name]), Interpolate(rest, env)) else None
  {
    var s := "$" + name + rest;
    assert s[1..] == name + rest && s[1] == name[0] && name[0] in name;
    IdentRunIs(name, rest);
    InterpolateScanned(s, Reference(name, Bare, ""), 1 + |name|, env);
    assert s[1 + |name|..] == rest;
  }

  /** Behind its name, a braced reference ends or gives a default, and is closed. */
  predicate ClosesReference(tail: string) {
    tail != "" && (tail[0] == '}' || ((tail[0] == '-' || ":-" <= tail) && '}' in tail))
  }

  /** Any other `$` is an ordinary character: before something that cannot start a name, and before a brace that holds
      no well-formed reference. */
  lemma OtherDollar(rest: string, env: Env)
    requires rest == "" || (rest[0] != '{' && !IsIdentStart(rest[0])) ||
      (rest[0] == '{' &&
        (NamePrefix(rest[1..]) == "" || !ClosesReference(rest[1 + |NamePrefix(rest[1..])|..])))
    ensures Interpolate("$" + rest, env) == Joined(Some("$"), Interpolate(rest, env))
  {
    var s := "$" + rest;
    assert s[1..] == rest;
    if |s| >= 2 && s[1] == '{' {
      assert s[2..] == rest[1..];
      var name := NamePrefix(rest[1..]);
      var tail := rest[1 + |name|..];
      assert s[2 + |name|..] == tail;
      NotClosed(name, tail);
    }
    InterpolateCopies('$', rest, env);
  }

  lemma NotClosed(name: string, tail: string)
    ensures BracedTail(name, tail).None? <==> !ClosesReference(tail)
  {
    var skip := if ":-" <= tail then 2 else 1;
    if tail != "" && (tail[0] == '-' || ":-" <= tail) {
      assert tail == tail[..skip] + tail[skip..];
      assert '}' in tail <==> '}' in tail[skip..];
      var close := IndexOf(tail[skip..], '}');
      assert close == |tail[skip..]| <==> '}' !in tail[skip..] by {
        assert tail[skip..] == tail[skip..][..close] + tail[skip..][close..];
      }
    }
  }

  // ----- Which lines of a `.env` file assign what -----

  /** `KEY=value` with white space anywhere around the two: the value loses one pair of quotes. */
  lemma BodyAssigns(key: string, gap: string, margin: string, value: string)
    requires IsName(key) && AllSpace(gap) && AllSpace(margin) && IsTrimmed(value)
    ensures BodyAssignment(key + gap + "=" + margin + value) == Some((key, Unquote(value)))
  {
    var name, rest := key + gap, margin + value;
    assert key + gap + "=" + margin + value == name + ['='] + rest;
    IndexOfIs(name, '=', rest);
    assert (name + ['='] + rest)[..|name|] == name && (name + ['='] + rest)[|name| + 1..] == rest;
    NameIsTrimmed(key);
    TrimIs("", key, gap);
    TrimIs(margin, value, "");
    assert "" + key + gap == name && margin + value + "" == rest;
  }

  lemma NameIsTrimmed(key: string)
    requires IsName(key)
    ensures IsTrimmed(key)
  {
    assert key[0] in key && key[|key| - 1] in key;
  }

  /** A line that assigns, with or without `export`. (`TrimIs` says what a line's trimmed text is.) */
  lemma LineAssigns(line: string, blanks: string, key: string, gap: string, margin: string, value: string)
    requires IsName(key) && IsTrimmed(value) && AllSpace(blanks) && AllSpace(gap) && AllSpace(margin)
    requires (value == "" ==> margin == "") && (key == "export" ==> gap == "")
    requires var body := key + gap + "=" + margin + value;
      Trim(line) == body || Trim(line) == "export " + blanks + body
    ensures LineAssignment(line) == Some((key, Unquote(value)))
  {
    hide BodyAssignment, Trim, Unquote, LineAssignment, AllSpace, IsTrimmed, IsName;
    var body := key + gap + "=" + margin + value;
    BodyAssigns(key, gap, margin, value);
    BodyIsTrimmed(key, gap, margin, value);
    NoExport(key, gap, margin + value);
    LineIsTrimmedBody(line, blanks, body) by {
      assert body == key + gap + "=" + (margin + value);
    }
  }

  lemma LineIsTrimmedBody(line: string, blanks: string, body: string)
    requires IsTrimmed(body) && body != "" && IsIdentStart(body[0]) && !(EXPORT <= body) && AllSpace(blanks)
    requires Trim(line) == body || Trim(line) == "export " + blanks + body
    ensures LineAssignment(line) == BodyAssignment(body)
  {
    hide BodyAssignment, Trim, AllSpace, IsTrimmed;
    if Trim(line) == body {
      TrimmedIsBody(line, body);
    } else {
      TrimIs(blanks, body, "") by {
        assert AllSpace("") by {
          EmptyIsSpace();
        }
      }
      assert blanks + body + "" == blanks + body;
      assert "export " + blanks + body == "export " + (blanks + body);
      ExportedIsBody(line, blanks + body);
    }
  }

  lemma EmptyIsSpace()
    ensures AllSpace("")
  {
  }

  lemma TrimmedIsBody(line: string, body: string)
    requires Trim(line) == body && body != "" && body[0] != '#' && !(EXPORT <= body)
    ensures LineAssignment(line) == BodyAssignment(body)
  {
    hide Trim, BodyAssignment;
  }

  lemma ExportedIsBody(line: string, text: string)
    requires Trim(line) == "export " + text
    ensures LineAssignment(line) == BodyAssignment(Trim(text))
  {
    assert ("export " + text)[|EXPORT|..] == text && ("export " + text)[0] == 'e';
    hide Trim, BodyAssignment;
  }

  lemma BodyIsTrimmed(key: string, gap: string, margin: string, value: string)
    requires IsName(key) && IsTrimmed(value) && (value == "" ==> margin == "")
    ensures var body := key + gap + "=" + margin + value;
      IsTrimmed(body) && body != "" && body[0] == key[0] && IsIdentStart(body[0])
  {
    NameIsTrimmed(key);
    var body := key + gap + "=" + margin + value;
    assert body[|body| - 1] == if value == "" then '=' else value[|value| - 1];
  }

  /** A name before `=` is not the word `export` and a blank. */
  lemma NoExport(key: string, gap: string, rest: string)
    requires IsName(key) && AllSpace(gap) && (key == "export" ==> gap == "")
    ensures !(EXPORT <= key + gap + "=" + rest)
  {
    var body := key + gap + "=" + rest;
    if |key| > 6 {
      assert body[6] == key[6] && key[6] in key;
    } else if |key| == 6 {
      assert body[..6] == key && EXPORT[..6] == "export";
      assert gap == "" ==> body[6] == '=';
    } else {
      assert body[|key|] == if gap == "" then '=' else gap[0];
      assert gap != "" ==> gap[0] in gap;
      assert IsIdentStart(EXPORT[|key|]);
    }
  }

  /** Blank lines, comments and lines without a key or without `=` assign nothing. */
  lemma NothingAssigned(line: string)
    requires Trim(line) == "" || Trim(line)[0] == '#' || Trim(line)[0] == '=' || '=' !in line
    ensures LineAssignment(line) == None
  {
    var text := Trim(line);
    if '=' !in line {
      TrimAdds(line, '=');
      if EXPORT <= text {
        TrimAdds(text[|EXPORT|..], '=');
      }
    } else if text != "" && text[0] == '=' {
      assert text[..IndexOf(text, '=')] == "" && Trim("") == "";
      assert EXPORT[0] != text[0];
    }
    hide Trim;
  }

  /** One pair of matching quotes goes, and only one. */
  lemma UnquoteStripsOnce(value: string)
    ensures Unquote("\"" + value + "\"") == value && Unquote("'" + value + "'") == value
    ensures |value| < 2 || (value[0] != '"' && value[0] != '\'') || value[0] != value[|value| - 1] ==>
      Unquote(value) == value
  {
  }

  /** A text without `$` means itself. */
  lemma {:induction false} InterpolateLiteral(raw: string, env: Env)
    requires '$' !in raw
    ensures Interpolate(raw, env) == Some(raw) && ReferencedNames(raw) == {}
  {
    LiteralTokens(raw);
    LiteralsResolve(raw, Tokens(raw), env);
  }

  lemma {:induction false} LiteralTokens(raw: string)
    requires '$' !in raw
    ensures |Tokens(raw)| == |raw| && forall i :: 0 <= i < |raw| ==> Tokens(raw)[i] == Literal(raw[i])
    ensures ReferencedNames(raw) == {}
  {
    if raw != "" {
      LiteralTokens(raw[1..]);
    }
  }

  lemma {:induction false} LiteralsResolve(raw: string, tokens: seq<Token>, env: Env)
    requires |tokens| == |raw| && forall i :: 0 <= i < |raw| ==> tokens[i] == Literal(raw[i])
    ensures ResolveAll(tokens, env) == Some(raw)
  {
    if raw != "" {
      var init := raw[..|raw| - 1];
      LiteralsResolve(init, tokens[..|raw| - 1], env);
      assert tokens[|tokens| - 1] == Literal(raw[|raw| - 1]);
      assert init + [raw[|raw| - 1]] == raw;
    }
  }

  /** Interpolation fails exactly when some reference cannot be resolved. */
  lemma {:induction false} UnresolvedIff(tokens: seq<Token>, env: Env)
    ensures ResolveAll(tokens, env).None? <==> exists i :: 0 <= i < |tokens| && Resolve(tokens[i], env).None?
  {
    if tokens != [] {
      var init := tokens[..|tokens| - 1];
      UnresolvedIff(init, env);
      assert forall i :: 0 <= i < |init| ==> init[i] == tokens[i];
    }
  }

  function Braced(name: string): string {
    "${" + name + "}"
  }

  /** `${NAME}` is one reference to NAME. */
  lemma InterpolateBraced(name: string, env: Env)
    requires IsName(name)
    ensures Interpolate(Braced(name), env) == Lookup(env, name)
    ensures ReferencedNames(Braced(name)) == {name}
  {
    var s := Braced(name);
    assert s[2..] == name + "}";
    IdentRunIs(name, "}");
    assert NamePrefix(s[2..]) == name;
    assert s[2 + |name|..] == "}";
    var token := Reference(name, Bare, "");
    assert ScanReference(s) == Some((token, |s|));
    assert Tokens(s) == [token] + Tokens(s[|s|..]) == [token];
    SingleToken(token, env);
    assert s[1..] == "{" + (name + "}") && '$' !in s[1..];
    LiteralTokens(s[1..]);
  }

  /** `$NAME` at the end of a text is one reference to NAME. */
  lemma InterpolateBare(name: string, env: Env)
    requires IsName(name)
    ensures Interpolate("$" + name, env) == Lookup(env, name)
  {
    var s := "$" + name;
    assert s[1..] == name && name + "" == name && name[0] in name;
    IdentRunIs(name, "");
    var token := Reference(name, Bare, "");
    assert ScanReference(s) == Some((token, |s|));
    assert Tokens(s) == [token] + Tokens(s[|s|..]) == [token];
    SingleToken(token, env);
  }

  lemma SingleToken(token: Token, env: Env)
    ensures ResolveAll([token], env) == Resolve(token, env)
  {
    assert [token][..0] == [];
    assert ResolveAll([], env) == Some("");
    match Resolve(token, env)
    case Some(value) => assert "" + value == value;
    case None =>
  }
}
