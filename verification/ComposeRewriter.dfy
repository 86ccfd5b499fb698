/** The migration's rewrite of a compose file (server/src/infrastructure/compose-rewriter.ts): inline
    environment literals move to `.env` under allocated names, and every value keeps its meaning. */
module ComposeRewriter {
  import opened Text
  import opened HostPorts
  import opened DotenvFormat
  import opened SourceEdits

  // ----- The document -----

  datatype Style = Plain | SingleQuoted | DoubleQuoted | Block

  /** A parsed scalar: a string, a number or boolean, or nothing. */
  datatype Value = Str(text: string) | NonString | Null

  /** `raw` is the scalar's slice of the source, quotes included. */
  datatype Scalar = Scalar(style: Style, value: Value, raw: string)

  /** The file, cut at its scalar values. A gap is what lies between them: keys, punctuation and comments, in which
      compose interpolates nothing. A volume reference carries what the volume rules replace it by, as it is then
      spelled, if they move it. Every other value is left alone, except those of map-form `environment` entries. */
  datatype Piece =
    | Gap(text: string)
    | Other(node: Scalar)
    | VolumeRef(node: Scalar, moved: Option<Scalar>)
    | EnvEntry(service: string, key: string, node: Scalar)

  type Document = seq<Piece>

  function PieceText(piece: Piece): string {
    if piece.Gap? then piece.text else piece.node.raw
  }

  function Source(doc: Document): string {
    if doc == [] then "" else PieceText(doc[0]) + Source(doc[1..])
  }

  function Quote(style: Style): string {
    match style
    case SingleQuoted => "'"
    case DoubleQuoted => "\""
    case _ => ""
  }

  /** `value` in a scalar's own quote style. */
  function Requoted(style: Style, value: string): string {
    Quote(style) + value + Quote(style)
  }

  /** A scalar whose spelling needs no decoding (no escape, no folded line) has that spelling as its value. */
  ghost predicate WellSpelled(node: Scalar) {
    match node.style
    case Plain =>
      if node.value.Str? then '\n' !in node.raw ==> node.value.text == node.raw else '$' !in node.raw
    case Block => node.value.Str?
    case _ =>
      node.value.Str? &&
      forall body :: node.raw == Requoted(node.style, body) && Verbatim(node.style, body) ==> node.value.text == body
  }

  /** A quoted body that reads as itself. */
  predicate Verbatim(style: Style, body: string) {
    '\n' !in body && (if style.SingleQuoted? then '\'' !in body else '\\' !in body)
  }

  // ----- What moves, and under which name -----

  predicate IsCanonicalNumber(raw: string) {
    var digits := if raw != "" && raw[0] == '-' then raw[1..] else raw;
    digits != "" && (forall c :: c in digits ==> '0' <= c <= '9') && (digits[0] == '0' ==> |digits| == 1)
  }

  /** Plain scalars compose reads back with the same text. */
  predicate IsCanonicalPlain(raw: string) {
    raw == "true" || raw == "false" || IsCanonicalNumber(raw)
  }

  predicate IsBracedReference(s: string) {
    |s| >= 2 && s[0] == '{' &&
    var name := NamePrefix(s[1..]);
    name != "" &&
    var tail := s[1 + |name|..];
    tail == "}" ||
    var op := if tail != "" && tail[0] == ':' then tail[1..] else tail;
    |op| >= 2 && op[0] in "-?+" && op[|op| - 1] == '}' && '}' !in op[..|op| - 1]
  }

  predicate IsVariableReference(value: string) {
    var text := Trim(value);
    |text| >= 2 && text[0] == '$' && (IsName(text[1..]) || IsBracedReference(text[1..]))
  }

  /** The text to move to `.env`; `None` when the entry must stay inline. */
  function LiteralEnvValue(key: string, node: Scalar): Option<string> {
    if node.style.Block? || node.value.Null? || !IsName(key) then None
    else
      var text := if node.value.Str? then node.value.text else node.raw;
      var readsBackUnchanged := if node.value.Str? then IsDotenvSafeValue(text) else IsCanonicalPlain(text);
      if readsBackUnchanged && !IsVariableReference(text) then Some(text) else None
  }

  datatype NameConstraints = NameConstraints(reserved: set<string>, existingEnv: Env, referenced: set<string>)

  function PrefixChar(c: char): char {
    if 'a' <= c <= 'z' then (c as int - 'a' as int + 'A' as int) as char
    else if 'A' <= c <= 'Z' || '0' <= c <= '9' then c
    else '_'
  }

  function PrefixChars(name: string): (r: string)
    ensures forall c :: c in r ==> IsIdentChar(c)
  {
    if name == "" then "" else [PrefixChar(name[0])] + PrefixChars(name[1..])
  }

  /** A service name made usable inside a variable name. */
  function VariablePrefix(serviceName: string): string {
    var upper := PrefixChars(serviceName);
    if upper != "" && '0' <= upper[0] <= '9' then "_" + upper else upper
  }

  const MAX_NAME_SUFFIX: nat := 99

  function Numbered(base: string, suffix: nat): seq<string>
    decreases MAX_NAME_SUFFIX - suffix
  {
    if suffix > MAX_NAME_SUFFIX then [] else [base + "_" + Decimal(suffix)] + Numbered(base, suffix + 1)
  }

  lemma NumberedStep(before: seq<string>, base: string, suffix: nat)
    requires suffix <= MAX_NAME_SUFFIX
    ensures before + Numbered(base, suffix) == (before + [base + "_" + Decimal(suffix)]) + Numbered(base, suffix + 1)
  {
    hide Decimal;
  }

  lemma NumberedEnds(before: seq<string>, base: string)
    ensures before + Numbered(base, MAX_NAME_SUFFIX + 1) == before
  {
  }

  function Candidates(serviceName: string, key: string): seq<string> {
    var prefixed := VariablePrefix(serviceName) + "_" + key;
    [key, prefixed] + Numbered(prefixed, 2)
  }

  function ValueOf(entries: Entries, name: string): (r: Option<string>)
    ensures r.Some? ==> (name, r.value) in entries
    ensures r.None? ==> forall e :: e in entries ==> e.0 != name
  {
    if entries == [] then None
    else if entries[0].0 == name then Some(entries[0].1)
    else ValueOf(entries[1..], name)
  }

  predicate ConfiguresCompose(name: string) {
    "COMPOSE_" <= name || "DOCKER_" <= name
  }

  predicate IsUsable(c: NameConstraints, entries: Entries, name: string, value: string) {
    if name in c.reserved || ConfiguresCompose(name) then false
    else
      match ValueOf(entries, name)
      case Some(before) => before == value
      case None => if name in c.existingEnv then c.existingEnv[name] == value else name !in c.referenced
  }

  function FirstUsable(c: NameConstraints, entries: Entries, candidates: seq<string>, value: string): (r: Option<string>)
    ensures r.Some? ==> r.value in candidates && IsUsable(c, entries, r.value, value)
    ensures r.None? ==> forall name :: name in candidates ==> !IsUsable(c, entries, name, value)
  {
    if candidates == [] then None
    else if IsUsable(c, entries, candidates[0], value) then Some(candidates[0])
    else FirstUsable(c, entries, candidates[1..], value)
  }

  /** The entries after a name was chosen; a name reused from the old `.env` has its line already. */
  function Assign(c: NameConstraints, entries: Entries, name: Option<string>, value: string): Entries {
    if name.Some? && name.value !in c.existingEnv && ValueOf(entries, name.value).None?
    then entries + [(name.value, value)]
    else entries
  }

  /** Every allocated name is fresh everywhere and carries one writable value. */
  ghost predicate GoodEntries(c: NameConstraints, entries: Entries) {
    DistinctNames(entries) && WritableEntries(entries) &&
    forall e :: e in entries ==> IsFresh(c, e.0)
  }

  predicate IsFresh(c: NameConstraints, name: string) {
    name !in c.reserved && name !in c.existingEnv && name !in c.referenced && !ConfiguresCompose(name)
  }

  /** `${name}` will resolve to `value`: by an old `.env` line or by an allocated entry, never by the shell. */
  predicate Carries(c: NameConstraints, entries: Entries, name: string, value: string) {
    IsName(name) && name !in c.reserved &&
    if name in c.existingEnv then c.existingEnv[name] == value else (name, value) in entries
  }

  lemma {:induction false} NumberedAreNames(base: string, suffix: nat)
    requires IsName(base)
    ensures forall name :: name in Numbered(base, suffix) ==> IsName(name)
    decreases MAX_NAME_SUFFIX - suffix
  {
    if suffix <= MAX_NAME_SUFFIX {
      NumberedAreNames(base, suffix + 1);
      var name := base + "_" + Decimal(suffix);
      assert name[0] == base[0];
    }
  }

  lemma CandidatesAreNames(serviceName: string, key: string)
    requires IsName(key)
    ensures forall name :: name in Candidates(serviceName, key) ==> IsName(name)
  {
    var upper := PrefixChars(serviceName);
    var prefix := VariablePrefix(serviceName);
    assert forall c :: c in prefix ==> IsIdentChar(c);
    assert prefix != "" ==> IsIdentStart(prefix[0]) by {
      assert prefix != "" ==> prefix[0] in prefix;
    }
    var prefixed := prefix + "_" + key;
    assert prefixed[0] == if prefix == "" then '_' else prefix[0];
    assert IsName(prefixed);
    hide Numbered;
    NumberedAreNames(prefixed, 2);
  }

  lemma AssignKeeps(c: NameConstraints, entries: Entries, name: string, value: string)
    requires GoodEntries(c, entries) && IsUsable(c, entries, name, value) && IsName(name) && IsDotenvSafeValue(value)
    ensures GoodEntries(c, Assign(c, entries, Some(name), value))
    ensures Carries(c, Assign(c, entries, Some(name), value), name, value)
  {
    if name in c.existingEnv {
      assert forall e :: e in entries ==> e.0 != name;
    }
  }

  /** One allocation keeps every promise made so far and keeps its own. */
  lemma AllocationKeeps(c: NameConstraints, entries: Entries, serviceName: string, key: string, value: string)
    requires GoodEntries(c, entries) && IsName(key) && IsDotenvSafeValue(value)
    ensures var name := FirstUsable(c, entries, Candidates(serviceName, key), value);
      && GoodEntries(c, Assign(c, entries, name, value))
      && entries <= Assign(c, entries, name, value)
      && (name.Some? ==> Carries(c, Assign(c, entries, name, value), name.value, value))
  {
    hide Candidates, GoodEntries, Carries, IsUsable, IsName, IsDotenvSafeValue;
    CandidatesAreNames(serviceName, key);
    var name := FirstUsable(c, entries, Candidates(serviceName, key), value);
    if name.Some? {
      AssignKeeps(c, entries, name.value, value);
    }
  }

  // ----- The rewrite -----

  /** `SourceEdits.replaceScalar`: the node as the edited file spells it. */
  function ReplaceScalar(node: Scalar, value: string): Scalar {
    if node.value == Str(value) || node.style.Block? || Requoted(node.style, value) == node.raw then node
    else Scalar(node.style, Str(value), Requoted(node.style, value))
  }

  /** The piece as the volume rules leave it. */
  function Settled(piece: Piece): Piece {
    if piece.VolumeRef? && piece.moved.Some? then VolumeRef(piece.moved.value, piece.moved) else piece
  }

  function RewritePiece(piece: Piece, c: NameConstraints, entries: Entries): (Piece, Entries) {
    if !piece.EnvEntry? then (Settled(piece), entries)
    else
      match LiteralEnvValue(piece.key, piece.node)
      case None => (piece, entries)
      case Some(literal) =>
        var name := FirstUsable(c, entries, Candidates(piece.service, piece.key), literal);
        (if name.None? then piece
         else EnvEntry(piece.service, piece.key, ReplaceScalar(piece.node, Braced(name.value))),
         Assign(c, entries, name, literal))
  }

  function RewriteFrom(doc: Document, c: NameConstraints, entries: Entries): (r: (Document, Entries))
    ensures |r.0| == |doc|
  {
    if doc == [] then ([], entries)
    else
      var (piece, entries1) := RewritePiece(doc[0], c, entries);
      var (rest, entries2) := RewriteFrom(doc[1..], c, entries1);
      ([piece] + rest, entries2)
  }

  function Constraints(doc: Document, existingEnv: Option<string>, reserved: set<string>): NameConstraints {
    NameConstraints(reserved, EnvOf(existingEnv), ReferencedNames(Source(doc)))
  }

  /** The rewritten document and the entries for `.env`. */
  function Rewritten(doc: Document, existingEnv: Option<string>, reserved: set<string>): (Document, Entries) {
    RewriteFrom(doc, Constraints(doc, existingEnv, reserved), [])
  }

  /** No candidate can carry this entry's literal, so it has to stay inline. */
  ghost predicate NoneUsable(c: NameConstraints, entries: Entries, piece: Piece)
    requires piece.EnvEntry? && LiteralEnvValue(piece.key, piece.node).Some?
  {
    forall name :: name in Candidates(piece.service, piece.key) ==>
      !IsUsable(c, entries, name, LiteralEnvValue(piece.key, piece.node).value)
  }

  /** A literal becomes a reference that carries it, unless no name can; everything else is left alone. */
  ghost predicate PieceRewritten(c: NameConstraints, entries: Entries, piece: Piece, piece': Piece) {
    (piece' == Settled(piece) &&
     (piece.EnvEntry? && LiteralEnvValue(piece.key, piece.node).Some? ==> NoneUsable(c, entries, piece))) ||
    (piece.EnvEntry? && LiteralEnvValue(piece.key, piece.node).Some? &&
     exists name :: Carries(c, entries, name, LiteralEnvValue(piece.key, piece.node).value)
       && piece' == EnvEntry(piece.service, piece.key, ReferenceTo(piece.node.style, name)))
  }

  function ReferenceTo(style: Style, name: string): Scalar {
    Scalar(style, Str(Braced(name)), Requoted(style, Braced(name)))
  }

  /** In a well-spelled document a moved literal is really replaced by its reference. */
  lemma ReplaceGivesReference(node: Scalar, key: string, name: string)
    requires WellSpelled(node) && LiteralEnvValue(key, node).Some? && IsName(name)
    ensures ReplaceScalar(node, Braced(name)) == ReferenceTo(node.style, name)
  {
    var text := Braced(name);
    assert text[0] == '$' && '$' in text;
    assert forall c :: c in text ==> c != '\n' && c != '\\' && c != '\'' && c != '"';
    if node.value.Str? {
      assert node.value.text != text;
      assert Verbatim(node.style, text);
      if node.style.Plain? {
        assert Requoted(node.style, text) == text;
      }
    } else {
      assert Requoted(node.style, text) == text;
    }
  }

  lemma LiteralIsSafe(key: string, node: Scalar)
    requires LiteralEnvValue(key, node).Some?
    ensures IsName(key) && IsDotenvSafeValue(LiteralEnvValue(key, node).value)
  {
  }

  ghost predicate AllWellSpelled(doc: Document) {
    forall i :: 0 <= i < |doc| && doc[i].EnvEntry? ==> WellSpelled(doc[i].node)
  }

  lemma {:induction false} ValueOfPrefix(entries: Entries, more: Entries, name: string)
    requires entries <= more && ValueOf(entries, name).Some?
    ensures ValueOf(more, name) == ValueOf(entries, name)
  {
    if entries[0].0 != name {
      ValueOfPrefix(entries[1..], more[1..], name);
    }
  }

  /** A name that could not carry a value before cannot carry it later either. */
  lemma UnusableStays(c: NameConstraints, entries: Entries, more: Entries, name: string, value: string)
    requires entries <= more && GoodEntries(c, more) && !IsUsable(c, entries, name, value)
    ensures !IsUsable(c, more, name, value)
  {
    if ValueOf(entries, name).Some? {
      ValueOfPrefix(entries, more, name);
    }
  }

  lemma CarriesMore(c: NameConstraints, entries: Entries, more: Entries, piece: Piece, piece': Piece)
    requires PieceRewritten(c, entries, piece, piece') && entries <= more && GoodEntries(c, more)
    ensures PieceRewritten(c, more, piece, piece')
  {
    hide LiteralEnvValue, Candidates, IsUsable, GoodEntries;
    if piece' != Settled(piece) {
      var name :| Carries(c, entries, name, LiteralEnvValue(piece.key, piece.node).value)
        && piece' == EnvEntry(piece.service, piece.key, ReferenceTo(piece.node.style, name));
      assert Carries(c, more, name, LiteralEnvValue(piece.key, piece.node).value);
    } else if piece.EnvEntry? && LiteralEnvValue(piece.key, piece.node).Some? && NoneUsable(c, entries, piece) {
      forall name | name in Candidates(piece.service, piece.key)
        ensures !IsUsable(c, more, name, LiteralEnvValue(piece.key, piece.node).value)
      {
        UnusableStays(c, entries, more, name, LiteralEnvValue(piece.key, piece.node).value);
      }
    }
  }

  lemma PieceKeeps(piece: Piece, c: NameConstraints, entries: Entries)
    requires GoodEntries(c, entries) && (piece.EnvEntry? ==> WellSpelled(piece.node))
    ensures var (piece', entries') := RewritePiece(piece, c, entries);
      GoodEntries(c, entries') && entries <= entries' && PieceRewritten(c, entries', piece, piece')
  {
    if piece.EnvEntry? && LiteralEnvValue(piece.key, piece.node).Some? {
      var literal := LiteralEnvValue(piece.key, piece.node).value;
      LiteralIsSafe(piece.key, piece.node);
      AllocationKeeps(c, entries, piece.service, piece.key, literal);
      hide Candidates, GoodEntries, LiteralEnvValue, ReplaceScalar, WellSpelled, IsUsable;
      var name := FirstUsable(c, entries, Candidates(piece.service, piece.key), literal);
      if name.Some? {
        ReplaceGivesReference(piece.node, piece.key, name.value);
      }
    }
  }

  /** Allocated names stay fresh and single-valued over the whole document. */
  lemma {:induction false} RewriteKeeps(doc: Document, c: NameConstraints, entries: Entries)
    requires GoodEntries(c, entries) && AllWellSpelled(doc)
    ensures var (doc', entries') := RewriteFrom(doc, c, entries);
      && GoodEntries(c, entries') && entries <= entries'
      && forall i :: 0 <= i < |doc| ==> PieceRewritten(c, entries', doc[i], doc'[i])
  {
    if doc != [] {
      hide RewritePiece, GoodEntries, PieceRewritten;
      var (piece, entries1) := RewritePiece(doc[0], c, entries);
      PieceKeeps(doc[0], c, entries);
      assert AllWellSpelled(doc[1..]);
      RewriteKeeps(doc[1..], c, entries1);
      var (rest, entries2) := RewriteFrom(doc[1..], c, entries1);
      CarriesMore(c, entries1, entries2, doc[0], piece);
      var doc' := RewriteFrom(doc, c, entries).0;
      forall i | 0 <= i < |doc|
        ensures PieceRewritten(c, entries2, doc[i], doc'[i])
      {
        if i > 0 {
          assert doc[i] == doc[1..][i - 1] && doc'[i] == rest[i - 1];
        }
      }
    }
  }

  // ----- Meaning -----

  /** What compose makes of a scalar; only an `environment` entry turns a number into text. */
  datatype Meaning = Text(text: Option<string>) | Typed(raw: string) | Unset

  function EnvMeaning(node: Scalar, env: Env): Meaning {
    match node.value
    case Str(text) => Text(Interpolate(text, env))
    case NonString => if IsCanonicalPlain(node.raw) then Text(Some(node.raw)) else Typed(node.raw)
    case Null => Unset
  }

  /** The same piece, apart from a moved volume reference, and the same meaning of what the piece then says. */
  ghost predicate SameMeaning(piece: Piece, env: Env, piece': Piece, env': Env) {
    match (piece, piece')
    case (Gap(text), Gap(text')) => text' == text
    case (Other(node), Other(node')) => node' == node && EnvMeaning(node', env') == EnvMeaning(node, env)
    case (VolumeRef(node, moved), VolumeRef(node', _)) =>
      node' == (if moved.Some? then moved.value else node) && EnvMeaning(node', env') == EnvMeaning(node', env)
    case (EnvEntry(service, key, node), EnvEntry(service', key', node')) =>
      service' == service && key' == key && EnvMeaning(node', env') == EnvMeaning(node, env)
    case _ => false
  }

  /** Compose's variables: `.env`, with the shell's taking precedence. */
  function Variables(dotenv: Env, shell: Env): Env {
    dotenv + shell
  }

  /** The names a scalar's parsed text references. */
  function NodeReferences(node: Scalar): set<string> {
    if node.value.Str? then ReferencedNames(node.value.text) else {}
  }

  /** The names a piece references, once the volume rules have been applied. */
  function PieceReferences(piece: Piece): set<string> {
    if piece.Gap? then {} else NodeReferences(Settled(piece).node)
  }

  function NewNames(entries: Entries): set<string> {
    set e | e in entries :: e.0
  }

  /** Reading the new `.env` below the shell: the old variables plus one variable per entry. */
  lemma NewVariables(c: NameConstraints, existingEnv: Option<string>, entries: Entries, shell: Env)
    requires GoodEntries(c, entries) && c.existingEnv == EnvOf(existingEnv) && shell.Keys <= c.reserved
    ensures var env := Variables(EnvOf(existingEnv), shell);
      var env' := Variables(EnvOf(MergedEnv(existingEnv, ExtractedEnv(entries))), shell);
      && (forall name :: name !in NewNames(entries) ==> Lookup(env', name) == Lookup(env, name))
      && (forall name :: name in NewNames(entries) ==> Lookup(env, name) == None && Lookup(env', name) != None)
      && (forall name, value :: Carries(c, entries, name, value) ==> Lookup(env', name) == Some(value))
  {
    MergedEnvReadsBack(existingEnv, entries);
    EntryMapHolds(entries);
  }

  /** A set of names keeps its meaning exactly when none of them was allocated. */
  lemma LookupsKeptIff(c: NameConstraints, existingEnv: Option<string>, entries: Entries, shell: Env, names: set<string>)
    requires GoodEntries(c, entries) && c.existingEnv == EnvOf(existingEnv) && shell.Keys <= c.reserved
    ensures (forall name :: name in names ==>
              Lookup(Variables(EnvOf(MergedEnv(existingEnv, ExtractedEnv(entries))), shell), name) ==
              Lookup(Variables(EnvOf(existingEnv), shell), name))
            <==> names !! NewNames(entries)
  {
    hide MergedEnv, ExtractedEnv, EnvOf, Variables, GoodEntries;
    NewVariables(c, existingEnv, entries, shell);
  }

  lemma LiteralMeaning(key: string, node: Scalar, env: Env)
    requires LiteralEnvValue(key, node).Some?
    ensures EnvMeaning(node, env) == Text(LiteralEnvValue(key, node))
  {
    if node.value.Str? {
      hide Interpolate;
      assert '$' !in node.value.text;
      InterpolateLiteral(node.value.text, env);
    }
  }

  lemma ReferenceMeaning(style: Style, name: string, env: Env)
    requires IsName(name)
    ensures EnvMeaning(ReferenceTo(style, name), env) == Text(Lookup(env, name))
  {
    hide Interpolate;
    InterpolateBraced(name, env);
  }

  lemma PieceMeaningKept(c: NameConstraints, entries: Entries, piece: Piece, piece': Piece, env: Env, env': Env)
    requires PieceRewritten(c, entries, piece, piece')
    requires forall name :: name in PieceReferences(piece) ==> Lookup(env, name) == Lookup(env', name)
    requires forall name, value :: Carries(c, entries, name, value) ==> Lookup(env', name) == Some(value)
    ensures SameMeaning(piece, env, piece', env')
  {
    if piece' == Settled(piece) {
      hide Interpolate;
      if !piece.Gap? && piece'.node.value.Str? {
        InterpolationNeedsOnlyReferences(piece'.node.value.text, env, env');
      }
    } else {
      hide LiteralEnvValue, EnvMeaning;
      var name :| Carries(c, entries, name, LiteralEnvValue(piece.key, piece.node).value)
        && piece' == EnvEntry(piece.service, piece.key, ReferenceTo(piece.node.style, name));
      LiteralMeaning(piece.key, piece.node, env);
      ReferenceMeaning(piece.node.style, name, env');
    }
  }

  /** No parsed value references an allocated name. */
  ghost predicate Untouched(doc: Document, entries: Entries) {
    forall i :: 0 <= i < |doc| ==> PieceReferences(doc[i]) !! NewNames(entries)
  }

  /** Every reference of every parsed value resolves alike. */
  ghost predicate ReferencesKept(doc: Document, env: Env, env': Env) {
    forall i, name :: 0 <= i < |doc| && name in PieceReferences(doc[i]) ==> Lookup(env', name) == Lookup(env, name)
  }

  /** One rewrite keeps everything: every reference and every name the file spells resolves as before, and every piece
      means what it meant. */
  ghost predicate Preserves(doc: Document, existingEnv: Option<string>, reserved: set<string>, shell: Env) {
    var (doc', entries) := Rewritten(doc, existingEnv, reserved);
    var env := Variables(EnvOf(existingEnv), shell);
    var env' := Variables(EnvOf(MergedEnv(existingEnv, ExtractedEnv(entries))), shell);
    && ReferencesKept(doc, env, env')
    && (forall i :: 0 <= i < |doc| ==> SameMeaning(doc[i], env, doc'[i], env'))
    && (forall name :: name in ReferencedNames(Source(doc)) ==> Lookup(env', name) == Lookup(env, name))
  }

  /** References are kept exactly when no parsed value references an allocated name, and then everything is. */
  lemma PreservesIffUntouched(doc: Document, existingEnv: Option<string>, reserved: set<string>, shell: Env)
    requires AllWellSpelled(doc) && shell.Keys <= reserved
    ensures Preserves(doc, existingEnv, reserved, shell) <==> Untouched(doc, Rewritten(doc, existingEnv, reserved).1)
  {
    hide Source, RewriteFrom, ReferencedNames, MergedEnv, ExtractedEnv, EnvOf, SameMeaning, PieceReferences;
    var c := Constraints(doc, existingEnv, reserved);
    RewriteKeeps(doc, c, []);
    var (doc', entries) := Rewritten(doc, existingEnv, reserved);
    NewVariables(c, existingEnv, entries, shell);
    assert c.referenced !! NewNames(entries);
    hide GoodEntries, PieceRewritten, Carries;
    var env := Variables(EnvOf(existingEnv), shell);
    var env' := Variables(EnvOf(MergedEnv(existingEnv, ExtractedEnv(entries))), shell);
    if Untouched(doc, entries) {
      forall i | 0 <= i < |doc|
        ensures SameMeaning(doc[i], env, doc'[i], env')
      {
        PieceMeaningKept(c, entries, doc[i], doc'[i], env, env');
      }
    }
  }

  // ----- Exactly when the meaning is kept -----

  predicate IsLiteralEntry(piece: Piece) {
    piece.EnvEntry? && LiteralEnvValue(piece.key, piece.node).Some?
  }

  /** Some literal of the document could be moved under this name. */
  predicate IsMovable(doc: Document, name: string) {
    !ConfiguresCompose(name) &&
    exists j :: 0 <= j < |doc| && IsLiteralEntry(doc[j]) && name in Candidates(doc[j].service, doc[j].key)
  }

  /** A name that a literal could take although a value uses it, because the file's text does not spell the use. */
  predicate IsHiddenMovable(doc: Document, name: string) {
    name !in ReferencedNames(Source(doc)) && IsMovable(doc, name)
  }

  /** Some value references such a name; decided on the file alone, before anything is rewritten. */
  predicate HidesMovable(doc: Document) {
    exists i :: 0 <= i < |doc| && exists name :: name in PieceReferences(doc[i]) && IsHiddenMovable(doc, name)
  }

  lemma MovableMore(piece: Piece, rest: Document, name: string)
    requires IsMovable(rest, name) ||
      (IsLiteralEntry(piece) && name in Candidates(piece.service, piece.key) && !ConfiguresCompose(name))
    ensures IsMovable([piece] + rest, name)
  {
    hide LiteralEnvValue, Candidates;
    var doc := [piece] + rest;
    if IsMovable(rest, name) {
      var j :| 0 <= j < |rest| && IsLiteralEntry(rest[j]) && name in Candidates(rest[j].service, rest[j].key);
      assert doc[j + 1] == rest[j];
    } else {
      assert doc[0] == piece;
    }
  }

  /** One piece adds at most a candidate of its own literal. */
  lemma PieceAddsCandidate(piece: Piece, c: NameConstraints, entries: Entries, e: (string, string))
    requires e in RewritePiece(piece, c, entries).1 && e !in entries
    ensures IsLiteralEntry(piece) && e.0 in Candidates(piece.service, piece.key) && !ConfiguresCompose(e.0)
  {
    hide Candidates, LiteralEnvValue;
  }

  /** Every allocated name is movable. */
  lemma {:induction false} NewNamesAreMovable(doc: Document, c: NameConstraints, entries: Entries, e: (string, string))
    requires e in RewriteFrom(doc, c, entries).1 && e !in entries
    ensures IsMovable(doc, e.0)
  {
    if doc != [] {
      hide RewritePiece, IsMovable, Candidates;
      var entries1 := RewritePiece(doc[0], c, entries).1;
      assert doc == [doc[0]] + doc[1..];
      if e in entries1 {
        PieceAddsCandidate(doc[0], c, entries, e);
      } else {
        NewNamesAreMovable(doc[1..], c, entries1, e);
      }
      MovableMore(doc[0], doc[1..], e.0);
    }
  }

  lemma {:induction false} EntriesGrow(doc: Document, c: NameConstraints, entries: Entries)
    ensures entries <= RewriteFrom(doc, c, entries).1
  {
    if doc != [] {
      var entries1 := RewritePiece(doc[0], c, entries).1;
      assert entries <= entries1;
      hide RewritePiece;
      EntriesGrow(doc[1..], c, entries1);
    }
  }

  /** The candidates of all literals. */
  function AllCandidates(doc: Document): set<string> {
    if doc == [] then {}
    else
      AllCandidates(doc[1..]) +
      if IsLiteralEntry(doc[0]) then set name | name in Candidates(doc[0].service, doc[0].key) else {}
  }

  /** The constraints leave every literal only `name`. */
  ghost predicate LeavesOnly(c: NameConstraints, doc: Document, name: string) {
    && name !in c.reserved && name !in c.existingEnv && name !in c.referenced && !ConfiguresCompose(name)
    && AllCandidates(doc) - {name} <= c.reserved
  }

  lemma LiteralTakesName(piece: Piece, c: NameConstraints, entries: Entries, name: string)
    requires IsLiteralEntry(piece) && name in Candidates(piece.service, piece.key)
    requires name !in c.reserved && name !in c.existingEnv && name !in c.referenced && !ConfiguresCompose(name)
    requires forall other :: other in Candidates(piece.service, piece.key) && other != name ==> other in c.reserved
    ensures name in NewNames(RewritePiece(piece, c, entries).1)
  {
    hide Candidates, LiteralEnvValue, ReplaceScalar;
    var literal := LiteralEnvValue(piece.key, piece.node).value;
    var chosen := FirstUsable(c, entries, Candidates(piece.service, piece.key), literal);
    if ValueOf(entries, name).Some? {
      assert (name, ValueOf(entries, name).value) in RewritePiece(piece, c, entries).1;
    } else {
      assert IsUsable(c, entries, name, literal);
      assert chosen == Some(name);
      assert (name, literal) in RewritePiece(piece, c, entries).1;
    }
  }

  lemma NamesGrow(entries: Entries, more: Entries)
    requires entries <= more
    ensures NewNames(entries) <= NewNames(more)
  {
    forall e | e in entries
      ensures e in more
    {
      var i :| 0 <= i < |entries| && entries[i] == e;
      assert more[i] == e;
    }
  }

  /** When nothing else is left, the first literal that can takes the name. */
  lemma {:induction false} NameIsTaken(doc: Document, c: NameConstraints, entries: Entries, name: string)
    requires LeavesOnly(c, doc, name) && IsMovable(doc, name)
    ensures name in NewNames(RewriteFrom(doc, c, entries).1)
  {
    hide RewritePiece, Candidates, ConfiguresCompose, NewNames, LiteralEnvValue;
    var j :| 0 <= j < |doc| && IsLiteralEntry(doc[j]) && name in Candidates(doc[j].service, doc[j].key);
    var entries1 := RewritePiece(doc[0], c, entries).1;
    assert RewriteFrom(doc, c, entries).1 == RewriteFrom(doc[1..], c, entries1).1;
    if j == 0 {
      LiteralTakesName(doc[0], c, entries, name);
      EntriesGrow(doc[1..], c, entries1);
      NamesGrow(entries1, RewriteFrom(doc[1..], c, entries1).1);
    } else {
      assert doc[1..][j - 1] == doc[j];
      NameIsTaken(doc[1..], c, entries1, name);
    }
  }

  /** A hidden movable name is allocated by some rewrite: without an `.env`, when all other candidates are reserved. */
  lemma HiddenNameIsAllocated(doc: Document, name: string)
    requires IsHiddenMovable(doc, name)
    ensures name in NewNames(Rewritten(doc, None, AllCandidates(doc) - {name}).1)
  {
    hide AllCandidates, Source, ReferencedNames, RewriteFrom, IsMovable, NewNames;
    assert !ConfiguresCompose(name) by {
      MovableIsAllowed(doc, name);
    }
    NameIsTaken(doc, Constraints(doc, None, AllCandidates(doc) - {name}), [], name);
  }

  lemma MovableIsAllowed(doc: Document, name: string)
    requires IsMovable(doc, name)
    ensures !ConfiguresCompose(name)
  {
  }

  /** A name that is allocated although it is not spelled in the file is a hidden movable one. */
  lemma AllocatedIsMovable(doc: Document, existingEnv: Option<string>, reserved: set<string>, name: string)
    requires AllWellSpelled(doc) && name in NewNames(Rewritten(doc, existingEnv, reserved).1)
    ensures IsHiddenMovable(doc, name)
  {
    hide Source, ReferencedNames, RewriteFrom, IsMovable, PieceRewritten;
    var c := Constraints(doc, existingEnv, reserved);
    var entries := Rewritten(doc, existingEnv, reserved).1;
    RewriteKeeps(doc, c, []);
    var e :| e in entries && e.0 == name;
    NewNamesAreMovable(doc, c, [], e);
  }

  /** Exactly which files are safe to rewrite, whatever the old `.env`, the reserved names and the shell below them:
      those in which no value references a hidden movable name. For these every reference resolves as before and every
      value keeps its meaning; for every other file some rewrite changes what a reference resolves to. */
  lemma MeaningKeptIff(doc: Document)
    requires AllWellSpelled(doc)
    ensures (forall existingEnv: Option<string>, reserved: set<string>, shell: Env ::
              shell.Keys <= reserved ==> Preserves(doc, existingEnv, reserved, shell))
            <==> !HidesMovable(doc)
  {
    hide Preserves, Untouched, IsHiddenMovable, PieceReferences, Rewritten, NewNames, AllCandidates;
    if HidesMovable(doc) {
      var i :| 0 <= i < |doc| && exists name :: name in PieceReferences(doc[i]) && IsHiddenMovable(doc, name);
      var name :| name in PieceReferences(doc[i]) && IsHiddenMovable(doc, name);
      var reserved := AllCandidates(doc) - {name};
      HiddenNameIsAllocated(doc, name);
      PreservesIffUntouched(doc, None, reserved, map[]);
      TouchedBy(doc, Rewritten(doc, None, reserved).1, i, name);
      assert !Preserves(doc, None, reserved, map[]);
    } else {
      forall existingEnv: Option<string>, reserved: set<string>, shell: Env | shell.Keys <= reserved
        ensures Preserves(doc, existingEnv, reserved, shell)
      {
        RewritePreservesMeaning(doc, existingEnv, reserved, shell);
      }
    }
  }

  lemma TouchedBy(doc: Document, entries: Entries, i: nat, name: string)
    requires i < |doc| && name in PieceReferences(doc[i]) && name in NewNames(entries)
    ensures !Untouched(doc, entries)
  {
    hide PieceReferences, NewNames;
  }

  /** The rewritten file with the new `.env` means what the old file with the old `.env` meant, piece by piece. */
  lemma RewritePreservesMeaning(doc: Document, existingEnv: Option<string>, reserved: set<string>, shell: Env)
    requires AllWellSpelled(doc) && !HidesMovable(doc) && shell.Keys <= reserved
    ensures Preserves(doc, existingEnv, reserved, shell)
  {
    hide Preserves, IsHiddenMovable, PieceReferences, Rewritten, NewNames;
    var entries := Rewritten(doc, existingEnv, reserved).1;
    forall i | 0 <= i < |doc|
      ensures PieceReferences(doc[i]) !! NewNames(entries)
    {
      forall name | name in PieceReferences(doc[i])
        ensures name !in NewNames(entries)
      {
        if name in NewNames(entries) {
          AllocatedIsMovable(doc, existingEnv, reserved, name);
        }
      }
    }
    PreservesIffUntouched(doc, existingEnv, reserved, shell);
  }

  // ----- Which files hide nothing -----

  predicate Delimits(a: string, b: string) {
    a == "" || b == "" || !IsIdentChar(a[|a| - 1]) || !IsIdentChar(b[0])
  }

  /** No name runs from one piece into the next. */
  ghost predicate Delimited(doc: Document) {
    doc != [] ==> Delimits(PieceText(doc[0]), Source(doc[1..])) && Delimited(doc[1..])
  }

  lemma {:induction false} IdentRunAppend(a: string, b: string)
    requires a != "" && Delimits(a, b)
    ensures IdentRun(a + b) == IdentRun(a)
  {
    assert (a + b)[1..] == a[1..] + b;
    if |a| > 1 {
      assert a[1..][|a| - 2] == a[|a| - 1];
      IdentRunAppend(a[1..], b);
    } else {
      assert a[1..] + b == b;
    }
  }

  lemma NamePrefixAppend(a: string, b: string)
    requires a != "" && Delimits(a, b)
    ensures NamePrefix(a + b) == NamePrefix(a)
  {
    IdentRunAppend(a, b);
    assert (a + b)[..IdentRun(a)] == a[..IdentRun(a)];
  }

  lemma {:induction false} ReferencedInPrefix(a: string, b: string)
    requires Delimits(a, b)
    ensures ReferencedNames(a) <= ReferencedNames(a + b)
  {
    if a != "" {
      assert (a + b)[1..] == a[1..] + b;
      assert Delimits(a[1..], b) by {
        assert |a| > 1 ==> a[1..][|a| - 2] == a[|a| - 1];
      }
      ReferencedInPrefix(a[1..], b);
      ReferenceAtPrefix(a, b);
    }
  }

  lemma ReferenceAtPrefix(a: string, b: string)
    requires Delimits(a, b)
    ensures ReferenceAt(a) <= ReferenceAt(a + b)
  {
    if |a| >= 2 {
      hide NamePrefix;
      var skip := if a[1] == '{' then 2 else 1;
      assert (a + b)[skip..] == a[skip..] + b;
      if a[skip..] != "" {
        assert a[skip..][|a| - skip - 1] == a[|a| - 1];
        NamePrefixAppend(a[skip..], b);
      } else {
        NoName();
      }
    } else {
      NoName();
    }
  }

  lemma NoName()
    ensures NamePrefix("") == ""
  {
  }

  lemma {:induction false} PieceInSource(doc: Document, i: nat)
    requires Delimited(doc) && i < |doc|
    ensures ReferencedNames(PieceText(doc[i])) <= ReferencedNames(Source(doc))
  {
    if i == 0 {
      ReferencedInPrefix(PieceText(doc[0]), Source(doc[1..]));
    } else {
      PieceInSource(doc[1..], i - 1);
      assert Source(doc)[|PieceText(doc[0])|..] == Source(doc[1..]);
      ReferencedInSuffix(Source(doc), |PieceText(doc[0])|);
    }
  }

  /** The scalar is its value, in its quotes. */
  predicate SpellsItself(node: Scalar) {
    node.value.Str? ==> node.raw == Requoted(node.style, node.value.text)
  }

  /** The scalar's spelling shows every name its value references. */
  ghost predicate ShowsReferences(node: Scalar) {
    NodeReferences(node) <= ReferencedNames(node.raw)
  }

  /** A file whose values all show their references, and whose moved volumes reference no other names, is safe. */
  lemma ShowingDocumentsHideNothing(doc: Document)
    requires Delimited(doc)
    requires forall i :: 0 <= i < |doc| && !doc[i].Gap? ==> ShowsReferences(doc[i].node)
    requires forall i :: 0 <= i < |doc| && doc[i].VolumeRef? && doc[i].moved.Some? ==>
      NodeReferences(doc[i].moved.value) <= NodeReferences(doc[i].node)
    ensures !HidesMovable(doc)
  {
    hide ReferencedNames, Source, IsMovable, NodeReferences;
    forall i | 0 <= i < |doc|
      ensures PieceReferences(doc[i]) <= ReferencedNames(Source(doc))
    {
      PieceInSource(doc, i);
    }
    hide PieceReferences;
  }

  /** A scalar without escapes or folded lines shows its references. */
  lemma VerbatimHidesNothing(node: Scalar)
    requires SpellsItself(node)
    ensures ShowsReferences(node)
  {
    if !node.value.Str? {
      return;
    }
    hide ReferencedNames;
    var quote, text := Quote(node.style), node.value.text;
    ReferencedInPrefix(text, quote);
    assert node.raw == quote + (text + quote) && node.raw[|quote|..] == text + quote;
    ReferencedInSuffix(node.raw, |quote|);
  }

  // ----- The rewriter -----

  /** Decides which `.env` name carries each extracted literal. */
  class EnvNameAllocator {
    const constraints: NameConstraints
    /** In the order in which the names were first emitted. */
    var emitted: Entries

    constructor (constraints: NameConstraints)
      ensures this.constraints == constraints && emitted == []
    {
      this.constraints := constraints;
      emitted := [];
    }

    method ListCandidates(serviceName: string, key: string) returns (candidates: seq<string>)
      ensures candidates == Candidates(serviceName, key)
    {
      var prefixed := VariablePrefix(serviceName) + "_" + key;
      hide VariablePrefix, Decimal, Numbered;
      candidates := [key, prefixed];
      var suffix := 2;
      while suffix <= MAX_NAME_SUFFIX
        invariant 2 <= suffix <= MAX_NAME_SUFFIX + 1
        invariant candidates + Numbered(prefixed, suffix) == Candidates(serviceName, key)
      {
        NumberedStep(candidates, prefixed, suffix);
        candidates := candidates + [prefixed + "_" + Decimal(suffix)];
        suffix := suffix + 1;
      }
      NumberedEnds(candidates, prefixed);
    }

    method FindUsable(candidates: seq<string>, value: string) returns (name: Option<string>)
      ensures name == FirstUsable(constraints, emitted, candidates, value)
    {
      hide IsUsable;
      name := None;
      var i := 0;
      while i < |candidates| && name.None?
        invariant 0 <= i <= |candidates|
        invariant FirstUsable(constraints, emitted, candidates, value) ==
          if name.Some? then name else FirstUsable(constraints, emitted, candidates[i..], value)
        decreases |candidates| - i, if name.None? then 1 else 0
      {
        if IsUsable(constraints, emitted, candidates[i], value) {
          name := Some(candidates[i]);
        }
        i := i + 1;
      }
      assert name.None? ==> candidates[i..] == [];
    }

    method Allocate(serviceName: string, key: string, value: string) returns (name: Option<string>)
      modifies this
      ensures name == FirstUsable(constraints, old(emitted), Candidates(serviceName, key), value)
      ensures emitted == Assign(constraints, old(emitted), name, value)
      ensures old(GoodEntries(constraints, emitted)) && IsName(key) && IsDotenvSafeValue(value) ==>
        GoodEntries(constraints, emitted) && old(emitted) <= emitted &&
        (name.Some? ==> Carries(constraints, emitted, name.value, value))
    {
      hide IsUsable, Carries, GoodEntries, IsName, IsDotenvSafeValue, Candidates, FirstUsable;
      var candidates := ListCandidates(serviceName, key);
      name := FindUsable(candidates, value);
      ghost var before := emitted;
      if name.Some? && name.value !in constraints.existingEnv && ValueOf(emitted, name.value).None? {
        emitted := emitted + [(name.value, value)];
      }
      if GoodEntries(constraints, before) && IsName(key) && IsDotenvSafeValue(value) {
        AllocationKeeps(constraints, before, serviceName, key, value);
      }
    }
  }

  datatype RewriteResult = RewriteResult(rewrittenCompose: string, extractedEnv: string, envVars: Env)

  /** The splices that turn `doc` into `doc'`, at the pieces' own places in the source. */
  ghost function Planned(doc: Document, doc': Document, offset: nat): seq<Splice>
    requires |doc| == |doc'|
  {
    if doc == [] then []
    else PlannedOne(doc[0], doc'[0], offset) + Planned(doc[1..], doc'[1..], offset + |PieceText(doc[0])|)
  }

  function PlannedOne(piece: Piece, piece': Piece, offset: nat): seq<Splice> {
    if piece == piece' then [] else [Splice(offset, offset + |PieceText(piece)|, PieceText(piece'))]
  }

  ghost predicate InOrder(splices: seq<Splice>, from: nat, to: nat) {
    (forall i :: 0 <= i < |splices| ==> from <= splices[i].start <= splices[i].end <= to) &&
    (forall i, j :: 0 <= i < j < |splices| ==> splices[i].end <= splices[j].start)
  }

  lemma Unfolded(doc: Document, doc': Document, offset: nat)
    requires |doc| == |doc'| && doc != []
    ensures Planned(doc, doc', offset) ==
      PlannedOne(doc[0], doc'[0], offset) + Planned(doc[1..], doc'[1..], offset + |PieceText(doc[0])|)
    ensures Source(doc) == PieceText(doc[0]) + Source(doc[1..])
    ensures Source(doc') == PieceText(doc'[0]) + Source(doc'[1..])
  {
  }

  lemma PlannedOneInOrder(piece: Piece, piece': Piece, offset: nat)
    ensures InOrder(PlannedOne(piece, piece', offset), offset, offset + |PieceText(piece)|)
  {
  }

  lemma {:induction false} PlannedInOrder(doc: Document, doc': Document, offset: nat)
    requires |doc| == |doc'|
    ensures InOrder(Planned(doc, doc', offset), offset, offset + |Source(doc)|)
  {
    if doc != [] {
      hide Planned, Source, InOrder, PlannedOne, PieceText;
      var next := offset + |PieceText(doc[0])|;
      PlannedInOrder(doc[1..], doc'[1..], next);
      Unfolded(doc, doc', offset);
      PlannedOneInOrder(doc[0], doc'[0], offset);
      InOrderAppend(PlannedOne(doc[0], doc'[0], offset), Planned(doc[1..], doc'[1..], next), offset, next,
                    offset + |Source(doc)|);
    }
  }

  lemma InOrderAppend(first: seq<Splice>, second: seq<Splice>, from: nat, middle: nat, to: nat)
    requires InOrder(first, from, middle) && InOrder(second, middle, to) && from <= middle <= to
    ensures InOrder(first + second, from, to)
  {
    var all := first + second;
    forall i | 0 <= i < |all|
      ensures from <= all[i].start <= all[i].end <= to
    {
      assert all[i] == if i < |first| then first[i] else second[i - |first|];
    }
    forall i, j | 0 <= i < j < |all|
      ensures all[i].end <= all[j].start
    {
      assert all[i] == if i < |first| then first[i] else second[i - |first|];
      assert all[j] == if j < |first| then first[j] else second[j - |first|];
    }
  }

  lemma InOrderInit(init: seq<Splice>, last: Splice, from: nat, to: nat)
    requires InOrder(init + [last], from, to)
    ensures InOrder(init, from, to)
    ensures init != [] ==> Precedes(init[|init| - 1], last)
  {
    var all := init + [last];
    assert all[|init|] == last && forall i :: 0 <= i < |init| ==> all[i] == init[i];
  }

  lemma InsertAtEnd(init: seq<Splice>, last: Splice)
    requires init != [] ==> Precedes(init[|init| - 1], last)
    ensures Insert(last, init) == init + [last]
  {
  }

  lemma OrderedLast(init: seq<Splice>, last: Splice)
    ensures Ordered(init + [last]) == Insert(last, Ordered(init))
  {
    assert (init + [last])[..|init|] == init;
  }

  lemma {:induction false} InOrderIsOrdered(splices: seq<Splice>, from: nat, to: nat)
    requires InOrder(splices, from, to)
    ensures Ordered(splices) == splices
  {
    if splices != [] {
      hide InOrder, Ordered, Insert, Precedes;
      var init, last := splices[..|splices| - 1], splices[|splices| - 1];
      assert splices == init + [last];
      InOrderInit(init, last, from, to);
      InOrderIsOrdered(init, from, to);
      OrderedLast(init, last);
      InsertAtEnd(init, last);
    }
  }

  lemma SplicedCons(source: string, splice: Splice, rest: seq<Splice>, cursor: nat, tail: string)
    requires Fits(splice, source) && AllFit(rest, source) && cursor <= splice.start
    requires Spliced(source, rest, splice.end) == Some(tail)
    ensures AllFit([splice] + rest, source)
    ensures Spliced(source, [splice] + rest, cursor) == Some(source[cursor..splice.start] + splice.text + tail)
  {
    assert ([splice] + rest)[1..] == rest;
    assert forall i :: 0 < i < |[splice] + rest| ==> ([splice] + rest)[i] == rest[i - 1];
  }

  lemma CopyStep(source: string, cursor: nat, offset: nat, next: nat, tail: string)
    requires cursor <= offset <= next <= |source|
    ensures source[cursor..next] + tail == source[cursor..offset] + (source[offset..next] + tail)
  {
  }

  /** Applying the planned splices yields the rewritten document's text. */
  lemma {:induction false} PlannedSplices(source: string, doc: Document, doc': Document, offset: nat, cursor: nat)
    requires |doc| == |doc'| && cursor <= offset <= |source| && source[offset..] == Source(doc)
    requires AllFit(Planned(doc, doc', offset), source)
    ensures Spliced(source, Planned(doc, doc', offset), cursor) == Some(source[cursor..offset] + Source(doc'))
    decreases |doc|
  {
    if doc == [] {
      assert source[cursor..] == source[cursor..offset] + "";
    } else {
      hide Planned, Source, Spliced;
      var next := offset + |PieceText(doc[0])|;
      Unfolded(doc, doc', offset);
      CutAt(source, offset, PieceText(doc[0]), Source(doc[1..]));
      var rest, tail' := Planned(doc[1..], doc'[1..], next), Source(doc'[1..]);
      if doc[0] == doc'[0] {
        assert Planned(doc, doc', offset) == rest;
        PlannedSplices(source, doc[1..], doc'[1..], next, cursor);
        CopyStep(source, cursor, offset, next, tail');
      } else {
        var splice := Splice(offset, next, PieceText(doc'[0]));
        assert PlannedOne(doc[0], doc'[0], offset) == [splice];
        RestFits(splice, rest, source);
        PlannedSplices(source, doc[1..], doc'[1..], next, next);
        assert source[next..next] + tail' == tail';
        SplicedCons(source, splice, rest, cursor, tail');
        Regroup(source[cursor..offset], splice.text, tail');
      }
    }
  }

  lemma Regroup(a: string, b: string, c: string)
    ensures a + b + c == a + (b + c)
  {
  }

  lemma CutAt(source: string, offset: nat, text: string, rest: string)
    requires offset <= |source| && source[offset..] == text + rest
    ensures offset + |text| <= |source|
    ensures source[offset..offset + |text|] == text && source[offset + |text|..] == rest
  {
    assert |source| - offset == |text| + |rest|;
    assert forall i :: 0 <= i < |text| ==> source[offset + i] == source[offset..][i] == text[i];
    assert forall i :: 0 <= i < |rest| ==> source[offset + |text| + i] == source[offset..][|text| + i] == rest[i];
  }

  lemma RestFits(splice: Splice, rest: seq<Splice>, source: string)
    requires AllFit([splice] + rest, source)
    ensures AllFit(rest, source) && Fits(splice, source)
  {
    var all := [splice] + rest;
    assert all[0] == splice && forall i :: 0 <= i < |rest| ==> rest[i] == all[i + 1];
  }

  lemma PlannedApply(doc: Document, doc': Document)
    requires |doc| == |doc'|
    ensures AllFit(Planned(doc, doc', 0), Source(doc))
    ensures ApplySplices(Source(doc), Planned(doc, doc', 0)) == Some(Source(doc'))
  {
    hide Source, Planned, Ordered, Spliced;
    PlannedInOrder(doc, doc', 0);
    InOrderIsOrdered(Planned(doc, doc', 0), 0, |Source(doc)|);
    assert Source(doc)[0..] == Source(doc);
    PlannedSplices(Source(doc), doc, doc', 0, 0);
    assert Source(doc)[0..0] + Source(doc') == Source(doc');
  }

  /** Replaces one volume reference that the rules move. */
  method RewriteVolume(piece: Piece, offset: nat, edits: SourceEdits)
    requires piece.VolumeRef?
    modifies edits
    ensures edits.splices == old(edits.splices) + PlannedOne(piece, Settled(piece), offset)
  {
    if piece.moved.Some? && piece.moved.value != piece.node {
      edits.Add(Splice(offset, offset + |PieceText(piece)|, piece.moved.value.raw));
    }
  }

  /** Moves one entry's literal to `.env`, by one edit at the entry's place. */
  method ExtractEntry(piece: Piece, offset: nat, edits: SourceEdits, names: EnvNameAllocator)
    requires piece.EnvEntry?
    modifies edits, names
    ensures var (piece', entries') := RewritePiece(piece, names.constraints, old(names.emitted));
      names.emitted == entries' && edits.splices == old(edits.splices) + PlannedOne(piece, piece', offset)
  {
    hide Candidates, FirstUsable, LiteralEnvValue, ReplaceScalar, GoodEntries;
    var literal := LiteralEnvValue(piece.key, piece.node);
    if literal.Some? {
      var name := names.Allocate(piece.service, piece.key, literal.value);
      if name.Some? {
        var replaced := EnvEntry(piece.service, piece.key, ReplaceScalar(piece.node, Braced(name.value)));
        if replaced != piece {
          edits.Add(Splice(offset, offset + |PieceText(piece)|, PieceText(replaced)));
        }
      }
    }
  }

  /** Plans the edits piece by piece and applies them to the original text; edits never overlap. (The order in which
      they are planned does not matter, `SourceEdits.ApplyIgnoresAddOrder`.) */
  method Rewrite(doc: Document, existingEnv: Option<string>, reserved: set<string>) returns (r: RewriteResult)
    ensures var (doc', entries) := Rewritten(doc, existingEnv, reserved);
      r == RewriteResult(Source(doc'), ExtractedEnv(entries), EntryMap(entries))
  {
    hide RewriteFrom, RewritePiece, ApplySplices, Planned, PlannedOne, Source;
    var edits := new SourceEdits(Source(doc));
    var names := new EnvNameAllocator(Constraints(doc, existingEnv, reserved));
    ghost var (doc', entries') := Rewritten(doc, existingEnv, reserved);
    PlannedApply(doc, doc');
    var offset: nat := 0;
    var i := 0;
    assert doc[0..] == doc && doc'[0..] == doc';
    assert edits.splices + Planned(doc, doc', 0) == Planned(doc, doc', 0);
    while i < |doc|
      invariant 0 <= i <= |doc| && fresh(edits) && fresh(names)
      invariant RewriteFrom(doc[i..], names.constraints, names.emitted) == (doc'[i..], entries')
      invariant edits.splices + Planned(doc[i..], doc'[i..], offset) == Planned(doc, doc', 0)
    {
      RewriteStep(doc, doc', i, names.constraints, names.emitted, entries');
      PlannedStep(edits.splices, doc, doc', i, offset);
      if doc[i].EnvEntry? {
        ExtractEntry(doc[i], offset, edits, names);
      } else {
        StaysPut(doc[i], names.constraints, names.emitted, offset, edits.splices);
        if doc[i].VolumeRef? {
          RewriteVolume(doc[i], offset, edits);
        }
      }
      offset := offset + |PieceText(doc[i])|;
      i := i + 1;
    }
    assert doc[i..] == [] && doc'[i..] == [];
    NothingLeft(names.constraints, names.emitted, edits.splices, offset);
    var text := edits.Apply();
    r := RewriteResult(text.value, ExtractedEnv(names.emitted), EntryMap(names.emitted));
  }

  lemma StaysPut(piece: Piece, c: NameConstraints, entries: Entries, offset: nat, done: seq<Splice>)
    requires !piece.EnvEntry?
    ensures RewritePiece(piece, c, entries) == (Settled(piece), entries)
    ensures !piece.VolumeRef? ==> done + PlannedOne(piece, Settled(piece), offset) == done
  {
  }

  lemma RewriteStep(doc: Document, doc': Document, i: nat, c: NameConstraints, entries: Entries, entries': Entries)
    requires i < |doc| == |doc'| && RewriteFrom(doc[i..], c, entries) == (doc'[i..], entries')
    ensures doc'[i] == RewritePiece(doc[i], c, entries).0
    ensures RewriteFrom(doc[i + 1..], c, RewritePiece(doc[i], c, entries).1) == (doc'[i + 1..], entries')
  {
    hide RewritePiece;
    assert doc[i..][0] == doc[i] && doc[i..][1..] == doc[i + 1..];
    assert doc'[i..][0] == doc'[i] && doc'[i..][1..] == doc'[i + 1..];
  }

  lemma PlannedStep(done: seq<Splice>, doc: Document, doc': Document, i: nat, offset: nat)
    requires i < |doc| == |doc'|
    ensures done + Planned(doc[i..], doc'[i..], offset) ==
      (done + PlannedOne(doc[i], doc'[i], offset)) + Planned(doc[i + 1..], doc'[i + 1..], offset + |PieceText(doc[i])|)
  {
    hide PlannedOne, PieceText;
    assert doc[i..][0] == doc[i] && doc[i..][1..] == doc[i + 1..];
    assert doc'[i..][0] == doc'[i] && doc'[i..][1..] == doc'[i + 1..];
  }

  lemma NothingLeft(c: NameConstraints, entries: Entries, done: seq<Splice>, offset: nat)
    ensures RewriteFrom([], c, entries) == ([], entries) && done + Planned([], [], offset) == done
  {
  }

  // ----- Volume references -----

  datatype VolumeSelection = VolumeSelection(originalPath: string, newPath: string, convert: bool)

  /** Which volume references the user chose to convert. */
  class VolumeRules {
    var bindRewrites: map<string, string>
    const namedVolumeSelections: map<string, bool>

    constructor (volumeSelections: seq<VolumeSelection>, namedVolumeSelections: map<string, bool>)
      ensures bindRewrites == BindRewrites(volumeSelections) && this.namedVolumeSelections == namedVolumeSelections
    {
      this.namedVolumeSelections := namedVolumeSelections;
      bindRewrites := map[];
      new;
      for i := 0 to |volumeSelections|
        invariant bindRewrites == BindRewrites(volumeSelections[..i])
      {
        var selection := volumeSelections[i];
        assert volumeSelections[..i + 1][..i] == volumeSelections[..i];
        if selection.convert {
          bindRewrites := bindRewrites[selection.originalPath := selection.newPath];
        }
      }
      assert volumeSelections[..|volumeSelections|] == volumeSelections;
    }

    function Rewritten(entry: string): Option<string>
      reads this
    {
      ShortForm(entry, bindRewrites, namedVolumeSelections)
    }
  }

  function BindRewrites(volumeSelections: seq<VolumeSelection>): map<string, string> {
    if volumeSelections == [] then map[]
    else
      var selection := volumeSelections[|volumeSelections| - 1];
      var before := BindRewrites(volumeSelections[..|volumeSelections| - 1]);
      if selection.convert then before[selection.originalPath := selection.newPath] else before
  }

  predicate ConvertsPath(selection: VolumeSelection, path: string) {
    selection.convert && selection.originalPath == path
  }

  /** The last converted selection of a path; -1 when there is none. */
  function LastConverted(volumeSelections: seq<VolumeSelection>, path: string): (i: int)
    ensures -1 <= i < |volumeSelections|
    ensures i >= 0 ==> ConvertsPath(volumeSelections[i], path)
    ensures forall j :: i < j < |volumeSelections| ==> !ConvertsPath(volumeSelections[j], path)
  {
    if volumeSelections == [] then -1
    else if ConvertsPath(volumeSelections[|volumeSelections| - 1], path) then |volumeSelections| - 1
    else LastConverted(volumeSelections[..|volumeSelections| - 1], path)
  }

  /** A path is rewritten exactly when some converted selection names it, to what the last of those asks for. */
  lemma {:induction false} LastConvertedWins(volumeSelections: seq<VolumeSelection>, path: string)
    ensures var last := LastConverted(volumeSelections, path);
      Lookup(BindRewrites(volumeSelections), path) == if last < 0 then None else Some(volumeSelections[last].newPath)
  {
    if volumeSelections != [] {
      LastConvertedWins(volumeSelections[..|volumeSelections| - 1], path);
    }
  }

  /** Where a short-form entry's host part moves; `None` when it stays. */
  function HostTarget(hostPath: string, bindRewrites: map<string, string>, named: map<string, bool>): Option<string> {
    if hostPath == "" || (hostPath[0] != '.' && hostPath[0] != '/') then
      if hostPath in named && named[hostPath] then Some("./volumes/" + hostPath) else None
    else if hostPath in bindRewrites && bindRewrites[hostPath] != "" then Some(bindRewrites[hostPath])
    else None
  }

  /** New text of a short-form entry (`host:container[:mode]`); `None` when it stays as it is. */
  function ShortForm(entry: string, bindRewrites: map<string, string>, named: map<string, bool>): Option<string> {
    var parts := Split(entry, ':');
    match HostTarget(parts[0], bindRewrites, named)
    case None => None
    case Some(target) => Some(Join([target] + parts[1..], ':'))
  }

  /** New `type` and `source` of a long-form entry (`{type, source, target}`); `None` for what stays. */
  function LongForm(kind: Option<string>, source: string, bindRewrites: map<string, string>, named: map<string, bool>)
    : (Option<string>, Option<string>)
  {
    if kind == Some("bind") then
      (None, if source in bindRewrites && bindRewrites[source] != "" then Some(bindRewrites[source]) else None)
    else if kind == Some("volume") && source in named && named[source] then
      (Some("bind"), Some("./volumes/" + source))
    else (None, None)
  }

  /** Both forms move one source to one place: a bind mount's path, or a named volume, which becomes a bind mount. */
  lemma LongFormAgreesWithShort(source: string, bindRewrites: map<string, string>, named: map<string, bool>)
    ensures source != "" && (source[0] == '.' || source[0] == '/') ==>
      LongForm(Some("bind"), source, bindRewrites, named) == (None, HostTarget(source, bindRewrites, named))
    ensures source == "" || (source[0] != '.' && source[0] != '/') ==>
      LongForm(Some("volume"), source, bindRewrites, named) ==
        var target := HostTarget(source, bindRewrites, named);
        (if target.Some? then Some("bind") else None, target)
  {
  }

  /** A volume reference under the rules. `spell` is how the YAML library writes a text in the scalar's place; block
      scalars and scalars that have the text already are not edited. */
  function VolumePiece(node: Scalar, target: Option<string>, spell: string -> Scalar): Piece {
    VolumeRef(node,
              if target.None? || node.style.Block? || node.value == Str(target.value) || spell(target.value).raw == node.raw
              then None else Some(spell(target.value)))
  }

  /** After the pass an entry reads what the rules ask for, unless it is a block scalar, which is never edited. A spelling
      means one thing in one place. */
  lemma MovedVolumeReads(node: Scalar, target: string, spell: string -> Scalar)
    requires spell(target).value == Str(target)
    requires spell(target).raw == node.raw ==> node.value == Str(target)
    ensures Settled(VolumePiece(node, Some(target), spell)).node.value == Str(target) <==>
      !node.style.Block? || node.value == Str(target)
  {
  }

  lemma {:induction false} FirstPart(s: string, c: char)
    ensures Split(s, c)[0] == s[..IndexOf(s, c)]
  {
    if s != "" && s[0] != c {
      FirstPart(s[1..], c);
    }
  }

  lemma JoinFirst(first: string, rest: seq<string>, c: char)
    ensures Join([first] + rest, c) == first + if rest == [] then "" else [c] + Join(rest, c)
  {
    assert ([first] + rest)[1..] == rest;
  }

  /** Only the host part is replaced: everything from the first `:` on is kept verbatim. */
  lemma ShortFormKeepsTheRest(entry: string, bindRewrites: map<string, string>, named: map<string, bool>)
    ensures var host := entry[..IndexOf(entry, ':')];
      ShortForm(entry, bindRewrites, named) ==
      match HostTarget(host, bindRewrites, named)
      case None => None
      case Some(target) => Some(target + entry[|host|..])
  {
    hide Join, Split, HostTarget;
    var parts := Split(entry, ':');
    FirstPart(entry, ':');
    JoinSplit(entry, ':');
    assert parts == [parts[0]] + parts[1..];
    JoinFirst(parts[0], parts[1..], ':');
    var tail := if parts[1..] == [] then "" else [':'] + Join(parts[1..], ':');
    assert entry == parts[0] + tail && entry[|parts[0]|..] == tail;
    match HostTarget(parts[0], bindRewrites, named)
    case None =>
    case Some(target) => JoinFirst(target, parts[1..], ':');
  }

  /** So a bind mount moves to where its last converted selection says, and a converted named volume to its place below
      `./volumes`; nothing else moves. */
  lemma ShortFormMoves(host: string, rest: string, volumeSelections: seq<VolumeSelection>, named: map<string, bool>)
    requires ':' !in host
    ensures var moved := ShortForm(host + ":" + rest, BindRewrites(volumeSelections), named);
      if host != "" && (host[0] == '.' || host[0] == '/') then
        var last := LastConverted(volumeSelections, host);
        moved == if last >= 0 && volumeSelections[last].newPath != "" then Some(volumeSelections[last].newPath + ":" + rest)
                 else None
      else moved == if host in named && named[host] then Some("./volumes/" + host + ":" + rest) else None
  {
    var entry := host + ":" + rest;
    assert entry == host + [':'] + rest;
    IndexOfIs(host, ':', rest);
    assert entry[..|host|] == host && entry[|host|..] == ":" + rest;
    ShortFormKeepsTheRest(entry, BindRewrites(volumeSelections), named);
    LastConvertedWins(volumeSelections, host);
    hide ShortForm, LastConverted, BindRewrites;
    assert forall target: string :: target + (":" + rest) == target + ":" + rest;
  }

  // ----- Where the promise ends -----

  const PORT_ENTRY := EnvEntry("web", "PORT", Scalar(DoubleQuoted, Str("80"), "\"80\""))
  const MOVED_PORT := EnvEntry("web", "PORT", ReferenceTo(DoubleQuoted, "PORT"))

  /** The double-quoted scalar `"\x24PORT"`: its value is `$PORT`, but its spelling has no `$`. */
  const HIDDEN_PORT := Scalar(DoubleQuoted, Str("$PORT"), "\"\\x24PORT\"")

  /** A file with an inline `PORT: "80"` and a value that hides a reference to it: a second `environment` entry, or any
      other value, such as an `image` or the top-level `name`. */
  function HidingDocument(before: string, between: string, hiding: Piece): Document {
    [Gap(before), PORT_ENTRY, Gap(between), hiding]
  }

  predicate IsHiding(hiding: Piece) {
    hiding == Other(HIDDEN_PORT) || (hiding.EnvEntry? && hiding.node == HIDDEN_PORT)
  }

  lemma SourceCons(piece: Piece, rest: Document)
    ensures Source([piece] + rest) == PieceText(piece) + Source(rest)
  {
    assert ([piece] + rest)[1..] == rest;
  }

  lemma HiddenSource(before: string, between: string, hiding: Piece)
    requires '$' !in before && '$' !in between && IsHiding(hiding)
    ensures ReferencedNames(Source(HidingDocument(before, between, hiding))) == {}
  {
    var doc := HidingDocument(before, between, hiding);
    assert Source([]) == "";
    hide Source, ReferencedNames;
    SourceCons(hiding, []);
    SourceCons(Gap(between), [hiding]);
    SourceCons(PORT_ENTRY, [Gap(between), hiding]);
    SourceCons(Gap(before), [PORT_ENTRY, Gap(between), hiding]);
    assert [hiding] + [] == [hiding] && [Gap(between)] + [hiding] == [Gap(between), hiding];
    assert [PORT_ENTRY] + [Gap(between), hiding] == [PORT_ENTRY, Gap(between), hiding];
    assert [Gap(before)] + [PORT_ENTRY, Gap(between), hiding] == doc;
    assert '$' !in PORT_ENTRY.node.raw && '$' !in HIDDEN_PORT.raw;
    assert '$' !in Source(doc);
    LiteralTokens(Source(doc));
  }

  lemma PortMoves(c: NameConstraints)
    requires c == NameConstraints({}, map[], {})
    ensures RewritePiece(PORT_ENTRY, c, []) == (MOVED_PORT, [("PORT", "80")])
  {
    PortIsLiteral();
    assert Candidates("web", "PORT")[0] == "PORT";
    assert IsUsable(c, [], "PORT", "80");
    hide Candidates, LiteralEnvValue, WellSpelled;
    assert FirstUsable(c, [], Candidates("web", "PORT"), "80") == Some("PORT");
    hide FirstUsable, IsUsable;
    ReplaceGivesReference(PORT_ENTRY.node, "PORT", "PORT");
    assert Assign(c, [], Some("PORT"), "80") == [("PORT", "80")];
  }

  lemma PortIsLiteral()
    ensures LiteralEnvValue("PORT", PORT_ENTRY.node) == Some("80") && WellSpelled(PORT_ENTRY.node)
  {
    assert Trim("80") == "80";
    forall body | PORT_ENTRY.node.raw == Requoted(DoubleQuoted, body)
      ensures body == "80"
    {
      assert |body| == 2 && body == Requoted(DoubleQuoted, body)[1..3];
    }
  }

  lemma HidingStays(c: NameConstraints, entries: Entries, hiding: Piece)
    requires IsHiding(hiding)
    ensures RewritePiece(hiding, c, entries) == (hiding, entries)
  {
    assert '$' in "$PORT" && IsUnsafe('$');
    assert hiding.EnvEntry? ==> LiteralEnvValue(hiding.key, HIDDEN_PORT) == None;
  }

  lemma RewriteCons(piece: Piece, rest: Document, c: NameConstraints, entries: Entries)
    ensures var (piece', entries') := RewritePiece(piece, c, entries);
      RewriteFrom([piece] + rest, c, entries) ==
        ([piece'] + RewriteFrom(rest, c, entries').0, RewriteFrom(rest, c, entries').1)
  {
    hide RewritePiece;
    assert ([piece] + rest)[1..] == rest;
  }

  lemma HiddenConstraints(before: string, between: string, hiding: Piece)
    requires '$' !in before && '$' !in between && IsHiding(hiding)
    ensures Constraints(HidingDocument(before, between, hiding), None, {}) == NameConstraints({}, map[], {})
  {
    HiddenSource(before, between, hiding);
    hide Source, ReferencedNames, HidingDocument, IsHiding;
  }

  /** The escape `\x24` keeps `$` out of the text, so the scan sees no reference and PORT is allocated. */
  lemma HiddenRewrite(before: string, between: string, hiding: Piece)
    requires '$' !in before && '$' !in between && IsHiding(hiding)
    ensures Rewritten(HidingDocument(before, between, hiding), None, {}) ==
      ([Gap(before), MOVED_PORT, Gap(between), hiding], [("PORT", "80")])
  {
    HiddenConstraints(before, between, hiding);
    hide Constraints, RewriteFrom, RewritePiece, IsHiding;
    var c := NameConstraints({}, map[], {});
    PortMoves(c);
    GapStays(before, c, []);
    TailStays(c, [("PORT", "80")], between, hiding);
    SecondMoves(HidingDocument(before, between, hiding), MOVED_PORT, c, [("PORT", "80")]);
  }

  lemma SecondMoves(doc: Document, moved: Piece, c: NameConstraints, entries: Entries)
    requires |doc| == 4 && RewritePiece(doc[0], c, []) == (doc[0], [])
    requires RewritePiece(doc[1], c, []) == (moved, entries)
    requires RewriteFrom([doc[2], doc[3]], c, entries) == ([doc[2], doc[3]], entries)
    ensures RewriteFrom(doc, c, []) == ([doc[0], moved, doc[2], doc[3]], entries)
  {
    hide RewriteFrom, RewritePiece;
    var tail := [doc[2], doc[3]];
    RewriteCons(doc[1], tail, c, []);
    RewriteCons(doc[0], [doc[1]] + tail, c, []);
    assert doc == [doc[0]] + ([doc[1]] + tail);
    assert [doc[0]] + ([moved] + tail) == [doc[0], moved, doc[2], doc[3]];
  }

  lemma GapStays(text: string, c: NameConstraints, entries: Entries)
    ensures RewritePiece(Gap(text), c, entries) == (Gap(text), entries)
  {
  }

  lemma TailStays(c: NameConstraints, entries: Entries, between: string, hiding: Piece)
    requires IsHiding(hiding)
    ensures RewriteFrom([Gap(between), hiding], c, entries) == ([Gap(between), hiding], entries)
  {
    assert RewriteFrom([], c, entries) == ([], entries);
    hide RewritePiece, RewriteFrom, IsHiding;
    HidingStays(c, entries, hiding);
    RewriteCons(hiding, [], c, entries);
    assert [hiding] + [] == [hiding];
    GapStays(between, c, entries);
    RewriteCons(Gap(between), [hiding], c, entries);
    assert [Gap(between)] + [hiding] == [Gap(between), hiding];
  }

  /** After that rewrite PORT has a value that it did not have before. */
  lemma PortAppears()
    ensures Lookup(EnvOf(MergedEnv(None, ExtractedEnv([("PORT", "80")]))), "PORT") == Some("80")
  {
    var entries := [("PORT", "80")];
    hide ExtractedEnv, EntryMap, EnvOf;
    MergedEnvReadsBack(None, entries);
    EntryMapHolds(entries);
    assert entries[0] in entries;
  }

  lemma HidingMeaning(env: Env)
    ensures EnvMeaning(HIDDEN_PORT, env) == Text(Lookup(env, "PORT"))
  {
    hide Interpolate;
    assert "$PORT" == "$" + "PORT";
    InterpolateBare("PORT", env);
  }

  /** An escaped `$` hides a reference from the scan: the name it uses is allocated and the value changes, be it in
      another `environment` entry or anywhere else in the file. */
  lemma HiddenReferenceChangesMeaning(before: string, between: string, hiding: Piece)
    requires '$' !in before && '$' !in between && IsHiding(hiding)
    ensures var (doc', entries) := Rewritten(HidingDocument(before, between, hiding), None, {});
      && doc'[3] == hiding
      && EnvMeaning(hiding.node, map[]) == Text(None)
      && EnvMeaning(hiding.node, EnvOf(MergedEnv(None, ExtractedEnv(entries)))) == Text(Some("80"))
  {
    hide Rewritten, EnvMeaning, ExtractedEnv, EnvOf, MergedEnv;
    HiddenRewrite(before, between, hiding);
    PortAppears();
    HidingMeaning(map[]);
    HidingMeaning(EnvOf(MergedEnv(None, ExtractedEnv([("PORT", "80")]))));
  }
}
