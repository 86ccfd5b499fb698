/** What becomes of every `environment` entry when a compose file is rewritten
    (server/src/infrastructure/compose-rewriter.ts): which ones move, under which name, and what `.env` gains. */
module ComposeExtraction {
  import opened Text
  import opened HostPorts
  import opened DotenvFormat
  import opened ComposeRewriter

  // ----- Which entries move -----

  /** No character of the text means anything to a `.env` file or to compose. */
  predicate IsInert(text: string) {
    forall c :: c in text ==> c !in {'$', '\\', '\'', '"', '\r', '\n', '\0'}
  }

  /** A boolean or a decimal integer, as compose itself would print it. */
  ghost predicate IsPrintedBack(text: string) {
    text == "true" || text == "false" || exists n :: IsInteger(text, n)
  }

  predicate IsInteger(text: string, n: nat) {
    text == Decimal(n) || text == "-" + Decimal(n)
  }

  /** The entry has the literal `value`: a writable string, or a number or boolean whose spelling is its text. */
  ghost predicate HasLiteral(piece: Piece, value: string) {
    piece.EnvEntry? && IsName(piece.key) && !piece.node.style.Block? &&
    match piece.node.value
    case Str(text) => text == value && IsInert(text)
    case NonString => piece.node.raw == value && IsPrintedBack(value)
    case Null => false
  }

  lemma CanonicalNumberIff(text: string)
    ensures IsCanonicalNumber(text) <==> exists n :: IsInteger(text, n)
  {
    if IsCanonicalNumber(text) {
      var digits := if text[0] == '-' then text[1..] else text;
      NumberPrintsBack(digits);
      assert IsInteger(text, NumberOf(digits));
    }
    if n :| IsInteger(text, n) {
      DecimalReadsBack(n);
      assert Decimal(n)[0] in Decimal(n);
      assert text == "-" + Decimal(n) ==> text[1..] == Decimal(n);
    }
  }

  lemma CanonicalIff(text: string)
    ensures IsCanonicalPlain(text) <==> IsPrintedBack(text)
  {
    CanonicalNumberIff(text);
    hide IsCanonicalNumber, IsInteger;
  }

  /** A text without `$` is no variable reference. */
  lemma InertIsNoReference(text: string)
    requires '$' !in text
    ensures !IsVariableReference(text)
  {
    TrimAdds(text, '$');
    hide Trim, IsBracedReference;
    assert Trim(text) != "" ==> Trim(text)[0] in Trim(text);
  }

  lemma {:induction false} DigitsAreInert(text: string)
    requires IsCanonicalPlain(text)
    ensures '$' !in text
  {
  }

  lemma InertIff(text: string)
    ensures IsInert(text) <==> IsDotenvSafeValue(text)
    ensures IsInert(text) ==> '$' !in text
  {
    assert forall c :: c in {'$', '\\', '\'', '"', '\r', '\n', '\0'} <==> IsUnsafe(c);
  }

  /** Exactly which entries move, and with which text. */
  lemma LiteralIff(piece: Piece, value: string)
    requires piece.EnvEntry?
    ensures LiteralEnvValue(piece.key, piece.node) == Some(value) <==> HasLiteral(piece, value)
  {
    CanonicalIff(value);
    InertIff(value);
    if '$' !in value {
      InertIsNoReference(value);
    }
    if IsCanonicalPlain(value) {
      DigitsAreInert(value);
    }
    hide IsInert, IsDotenvSafeValue, IsVariableReference, IsCanonicalPlain, IsPrintedBack, IsName;
  }

  // ----- Which names are tried -----

  /** The names tried for an entry: its key, the key behind the service's name, and that with a number. */
  lemma CandidatesAre(service: string, key: string)
    ensures var names := Candidates(service, key);
      var prefixed := VariablePrefix(service) + "_" + key;
      && |names| == 100 && names[0] == key && names[1] == prefixed
      && forall k :: 2 <= k < 100 ==> names[k] == prefixed + "_" + Decimal(k)
  {
    var prefixed := VariablePrefix(service) + "_" + key;
    hide VariablePrefix;
    NumberedAre(prefixed, 2);
  }

  lemma {:induction false} NumberedAre(base: string, suffix: nat)
    requires suffix <= 100
    ensures |Numbered(base, suffix)| == 100 - suffix
    ensures forall k :: 0 <= k < 100 - suffix ==> Numbered(base, suffix)[k] == base + "_" + Decimal(suffix + k)
    decreases 100 - suffix
  {
    hide Decimal;
    if suffix < 100 {
      NumberedAre(base, suffix + 1);
      var rest := Numbered(base, suffix + 1);
      forall k | 0 <= k < 100 - suffix
        ensures Numbered(base, suffix)[k] == base + "_" + Decimal(suffix + k)
      {
        if k > 0 {
          assert Numbered(base, suffix)[k] == rest[k - 1];
        }
      }
    }
  }

  /** `web.v2` becomes `WEB_V2`, and `1st` becomes `_1ST`. */
  lemma PrefixIs(service: string)
    ensures var prefix := VariablePrefix(service);
      var shift := if service != "" && '0' <= service[0] <= '9' then 1 else 0;
      && |prefix| == |service| + shift && (shift == 1 ==> prefix[0] == '_')
      && forall i :: 0 <= i < |service| ==>
           var c, d := service[i], prefix[shift + i];
           if 'a' <= c <= 'z' then 'A' <= d <= 'Z' && d as int - 'A' as int == c as int - 'a' as int
           else d == if 'A' <= c <= 'Z' || '0' <= c <= '9' then c else '_'
  {
    PrefixCharsAre(service);
  }

  lemma {:induction false} PrefixCharsAre(service: string)
    ensures |PrefixChars(service)| == |service|
    ensures forall i :: 0 <= i < |service| ==> PrefixChars(service)[i] == PrefixChar(service[i])
  {
    hide PrefixChar;
    if service != "" {
      PrefixCharsAre(service[1..]);
    }
  }

  /** The name cannot carry the value: it is reserved or compose's own, carries another value, or is referenced
      already without having a value. */
  predicate IsTaken(c: NameConstraints, entries: Entries, name: string, value: string) {
    || name in c.reserved || "COMPOSE_" <= name || "DOCKER_" <= name
    || (exists e :: e in entries && e.0 == name && e.1 != value)
    || (name in c.existingEnv && c.existingEnv[name] != value)
    || (name in c.referenced && name !in c.existingEnv)
  }

  lemma UsableIff(c: NameConstraints, entries: Entries, name: string, value: string)
    requires GoodEntries(c, entries)
    ensures IsUsable(c, entries, name, value) <==> !IsTaken(c, entries, name, value)
  {
    match ValueOf(entries, name)
    case None =>
    case Some(before) =>
      assert IsFresh(c, name);
      forall e | e in entries && e.0 == name
        ensures e.1 == before
      {
        SameNameSameValue(entries, e, (name, before));
      }
  }

  lemma SameNameSameValue(entries: Entries, d: (string, string), e: (string, string))
    requires DistinctNames(entries) && d in entries && e in entries && d.0 == e.0
    ensures d == e
  {
    var i :| 0 <= i < |entries| && entries[i] == d;
    var j :| 0 <= j < |entries| && entries[j] == e;
  }

  /** The first name of a list that is not taken. */
  predicate IsFirstFree(c: NameConstraints, entries: Entries, names: seq<string>, value: string, k: int) {
    0 <= k < |names| && !IsTaken(c, entries, names[k], value) &&
    forall j :: 0 <= j < k ==> IsTaken(c, entries, names[j], value)
  }

  lemma {:induction false} FirstUsableIs(c: NameConstraints, entries: Entries, names: seq<string>, value: string)
    requires GoodEntries(c, entries)
    ensures match FirstUsable(c, entries, names, value)
      case None => forall k :: 0 <= k < |names| ==> IsTaken(c, entries, names[k], value)
      case Some(name) => exists k :: IsFirstFree(c, entries, names, value, k) && names[k] == name
  {
    if names != [] {
      UsableIff(c, entries, names[0], value);
      hide IsTaken, IsUsable, GoodEntries;
      if IsTaken(c, entries, names[0], value) {
        FirstUsableIs(c, entries, names[1..], value);
        match FirstUsable(c, entries, names[1..], value)
        case None =>
          assert forall k :: 1 <= k < |names| ==> names[k] == names[1..][k - 1];
        case Some(name) =>
          var k :| IsFirstFree(c, entries, names[1..], value, k) && names[1..][k] == name;
          assert forall j :: 1 <= j < |names| ==> names[j] == names[1..][j - 1];
          assert IsFirstFree(c, entries, names, value, k + 1);
      } else {
        assert IsFirstFree(c, entries, names, value, 0);
      }
    }
  }

  // ----- What becomes of an entry -----

  /** The choice of a name, seen from the end of the rewrite. */
  ghost predicate IsSettled(c: NameConstraints, entries: Entries, piece: Piece, piece': Piece) {
    if piece.EnvEntry? && LiteralEnvValue(piece.key, piece.node).Some? then
      var literal := LiteralEnvValue(piece.key, piece.node).value;
      var name := FirstUsable(c, entries, Candidates(piece.service, piece.key), literal);
      piece' == (if name.None? then piece
                 else EnvEntry(piece.service, piece.key, ReferenceTo(piece.node.style, name.value))) &&
      (name.Some? ==> Carries(c, entries, name.value, literal))
    else piece' == Settled(piece)
  }

  /** The first usable name stays the first usable one once it carries the value. */
  lemma {:induction false} FirstUsableStays(c: NameConstraints, entries: Entries, more: Entries, names: seq<string>,
                                            value: string)
    requires GoodEntries(c, entries) && GoodEntries(c, more)
    requires Assign(c, entries, FirstUsable(c, entries, names, value), value) <= more
    ensures FirstUsable(c, more, names, value) == FirstUsable(c, entries, names, value)
  {
    if names != [] {
      hide GoodEntries;
      if IsUsable(c, entries, names[0], value) {
        UsableStays(c, entries, more, names[0], value);
      } else {
        AssignGrows(c, entries, FirstUsable(c, entries, names[1..], value), value, more);
        UnusableStays(c, entries, more, names[0], value);
        FirstUsableStays(c, entries, more, names[1..], value);
      }
    }
  }

  lemma AssignGrows(c: NameConstraints, entries: Entries, name: Option<string>, value: string, more: Entries)
    requires Assign(c, entries, name, value) <= more
    ensures entries <= more
  {
  }

  lemma UsableStays(c: NameConstraints, entries: Entries, more: Entries, name: string, value: string)
    requires GoodEntries(c, entries) && GoodEntries(c, more) && IsUsable(c, entries, name, value)
    requires Assign(c, entries, Some(name), value) <= more
    ensures IsUsable(c, more, name, value)
  {
    AssignGrows(c, entries, Some(name), value, more);
    if ValueOf(entries, name).Some? {
      ValueOfPrefix(entries, more, name);
    } else if name in c.existingEnv {
      assert ValueOf(more, name).None?;
    } else {
      var after := Assign(c, entries, Some(name), value);
      assert after[|entries|] == (name, value) && more[|entries|] == (name, value);
      assert (name, value) in more;
      SameNameSameValue(more, (name, value), (name, ValueOf(more, name).value));
    }
  }

  lemma SettledLater(c: NameConstraints, entries: Entries, more: Entries, piece: Piece)
    requires GoodEntries(c, entries) && GoodEntries(c, more) && (piece.EnvEntry? ==> WellSpelled(piece.node))
    requires RewritePiece(piece, c, entries).1 <= more
    ensures IsSettled(c, more, piece, RewritePiece(piece, c, entries).0)
  {
    if piece.EnvEntry? && LiteralEnvValue(piece.key, piece.node).Some? {
      var literal := LiteralEnvValue(piece.key, piece.node).value;
      LiteralIsSafe(piece.key, piece.node);
      AllocationKeeps(c, entries, piece.service, piece.key, literal);
      hide Candidates, GoodEntries, LiteralEnvValue, ReplaceScalar, WellSpelled, IsUsable, ReferenceTo;
      var names := Candidates(piece.service, piece.key);
      var name := FirstUsable(c, entries, names, literal);
      FirstUsableStays(c, entries, more, names, literal);
      if name.Some? {
        CarriesName(c, Assign(c, entries, name, literal), name.value, literal);
        ReplaceGivesReference(piece.node, piece.key, name.value);
        CarriesStays(c, Assign(c, entries, name, literal), more, name.value, literal);
      }
    }
  }

  lemma CarriesName(c: NameConstraints, entries: Entries, name: string, value: string)
    requires Carries(c, entries, name, value)
    ensures IsName(name)
  {
  }

  lemma CarriesStays(c: NameConstraints, entries: Entries, more: Entries, name: string, value: string)
    requires Carries(c, entries, name, value) && entries <= more
    ensures Carries(c, more, name, value)
  {
  }

  lemma {:induction false} AllSettled(doc: Document, c: NameConstraints, entries: Entries)
    requires GoodEntries(c, entries) && AllWellSpelled(doc)
    ensures var (doc', entries') := RewriteFrom(doc, c, entries);
      forall i :: 0 <= i < |doc| ==> IsSettled(c, entries', doc[i], doc'[i])
  {
    if doc != [] {
      RewriteKeeps(doc, c, entries);
      PieceKeeps(doc[0], c, entries);
      assert AllWellSpelled(doc[1..]);
      hide RewritePiece, GoodEntries, PieceRewritten, IsSettled, AllWellSpelled;
      var (piece, entries1) := RewritePiece(doc[0], c, entries);
      var (rest, entries2) := RewriteFrom(doc[1..], c, entries1);
      EntriesGrow(doc[1..], c, entries1);
      SettledLater(c, entries, entries2, doc[0]) by {
        FirstIsWellSpelled(doc);
      }
      AllSettled(doc[1..], c, entries1);
      var doc' := RewriteFrom(doc, c, entries).0;
      forall i | 0 <= i < |doc|
        ensures IsSettled(c, entries2, doc[i], doc'[i])
      {
        if i > 0 {
          assert doc[i] == doc[1..][i - 1] && doc'[i] == rest[i - 1];
        }
      }
    }
  }

  lemma FirstIsWellSpelled(doc: Document)
    requires AllWellSpelled(doc) && doc != []
    ensures doc[0].EnvEntry? ==> WellSpelled(doc[0].node)
  {
  }

  /** The entry now says `${name}`, in the quotes it had. */
  predicate RefersTo(piece: Piece, piece': Piece, name: string) {
    piece.EnvEntry? && piece'.EnvEntry? && piece'.service == piece.service && piece'.key == piece.key &&
    var quote := match piece.node.style case SingleQuoted => "'" case DoubleQuoted => "\"" case _ => "";
    piece'.node == Scalar(piece.node.style, Str("${" + name + "}"), quote + ("${" + name + "}") + quote)
  }

  /** The entry refers to the first free name, which has its value; when all are taken it is as it was. */
  ghost predicate IsExtracted(c: NameConstraints, entries: Entries, env: Env, piece: Piece, piece': Piece, value: string) {
    piece.EnvEntry? &&
    var names := Candidates(piece.service, piece.key);
    if exists k :: IsFirstFree(c, entries, names, value, k) then
      exists k :: IsFirstFree(c, entries, names, value, k) && RefersTo(piece, piece', names[k])
        && Lookup(env, names[k]) == Some(value)
    else piece' == piece
  }

  /** Every literal moves to the first of its names that is free at the end, and compose reads it back there under the
      shell; it stays inline exactly when all its names are taken. Everything else is left alone, but for moved volumes. */
  lemma EntriesAreExtracted(doc: Document, existingEnv: Option<string>, reserved: set<string>, shell: Env)
    requires AllWellSpelled(doc) && shell.Keys <= reserved
    ensures var (doc', entries) := Rewritten(doc, existingEnv, reserved);
      var env := Variables(EnvOf(MergedEnv(existingEnv, ExtractedEnv(entries))), shell);
      forall i, value :: 0 <= i < |doc| && HasLiteral(doc[i], value) ==>
        IsExtracted(Constraints(doc, existingEnv, reserved), entries, env, doc[i], doc'[i], value)
    ensures var doc' := Rewritten(doc, existingEnv, reserved).0;
      forall i :: 0 <= i < |doc| && !(exists value :: HasLiteral(doc[i], value)) ==>
        if doc[i].VolumeRef? && doc[i].moved.Some? then doc'[i].VolumeRef? && doc'[i].node == doc[i].moved.value
        else doc'[i] == doc[i]
  {
    var c := Constraints(doc, existingEnv, reserved);
    var (doc', entries) := Rewritten(doc, existingEnv, reserved);
    hide RewriteFrom, Source, ReferencedNames, MergedEnv, ExtractedEnv, EnvOf, AllWellSpelled, HasLiteral, IsExtracted;
    RewriteKeeps(doc, c, []);
    AllSettled(doc, c, []);
    NewVariables(c, existingEnv, entries, shell);
    hide PieceRewritten, GoodEntries, IsSettled, Carries;
    var env := Variables(EnvOf(MergedEnv(existingEnv, ExtractedEnv(entries))), shell);
    forall i, value | 0 <= i < |doc| && HasLiteral(doc[i], value)
      ensures IsExtracted(c, entries, env, doc[i], doc'[i], value)
    {
      SettledIsExtracted(c, entries, env, doc[i], doc'[i], value);
    }
    forall i | 0 <= i < |doc| && !(exists value :: HasLiteral(doc[i], value))
      ensures if doc[i].VolumeRef? && doc[i].moved.Some? then doc'[i].VolumeRef? && doc'[i].node == doc[i].moved.value
              else doc'[i] == doc[i]
    {
      OthersStay(c, entries, doc[i], doc'[i]);
    }
  }

  lemma OthersStay(c: NameConstraints, entries: Entries, piece: Piece, piece': Piece)
    requires IsSettled(c, entries, piece, piece') && !exists value :: HasLiteral(piece, value)
    ensures if piece.VolumeRef? && piece.moved.Some? then piece'.VolumeRef? && piece'.node == piece.moved.value
            else piece' == piece
  {
    hide LiteralEnvValue, HasLiteral, Candidates;
    if piece.EnvEntry? && LiteralEnvValue(piece.key, piece.node).Some? {
      LiteralIff(piece, LiteralEnvValue(piece.key, piece.node).value);
      assert false;
    }
  }

  lemma SettledIsExtracted(c: NameConstraints, entries: Entries, env: Env, piece: Piece, piece': Piece, value: string)
    requires GoodEntries(c, entries) && IsSettled(c, entries, piece, piece') && HasLiteral(piece, value)
    requires forall name, value :: Carries(c, entries, name, value) ==> Lookup(env, name) == Some(value)
    ensures IsExtracted(c, entries, env, piece, piece', value)
  {
    LiteralIff(piece, value);
    hide LiteralEnvValue, HasLiteral, Candidates, GoodEntries, Carries, IsTaken;
    FirstUsableIs(c, entries, Candidates(piece.service, piece.key), value);
  }

  /** `.env` gains nothing else: each new line is what some literal of the file was moved to. */
  lemma NothingElseIsWritten(doc: Document, existingEnv: Option<string>, reserved: set<string>, e: (string, string))
    requires AllWellSpelled(doc) && e in Rewritten(doc, existingEnv, reserved).1
    ensures var doc' := Rewritten(doc, existingEnv, reserved).0;
      exists i :: 0 <= i < |doc| && HasLiteral(doc[i], e.1) && RefersTo(doc[i], doc'[i], e.0)
  {
    AddedByAnEntry(doc, Constraints(doc, existingEnv, reserved), [], e);
  }

  lemma {:induction false} AddedByAnEntry(doc: Document, c: NameConstraints, entries: Entries, e: (string, string))
    requires GoodEntries(c, entries) && AllWellSpelled(doc) && e in RewriteFrom(doc, c, entries).1 && e !in entries
    ensures var doc' := RewriteFrom(doc, c, entries).0;
      exists i :: 0 <= i < |doc| && HasLiteral(doc[i], e.1) && RefersTo(doc[i], doc'[i], e.0)
  {
    if doc != [] {
      PieceKeeps(doc[0], c, entries);
      assert AllWellSpelled(doc[1..]);
      FirstIsWellSpelled(doc);
      hide RewritePiece, GoodEntries, PieceRewritten, AllWellSpelled, HasLiteral, RefersTo;
      var (piece, entries1) := RewritePiece(doc[0], c, entries);
      var doc', rest := RewriteFrom(doc, c, entries).0, RewriteFrom(doc[1..], c, entries1).0;
      if e in entries1 {
        AddedByThisEntry(doc[0], c, entries, e);
        assert doc'[0] == piece;
      } else {
        AddedByAnEntry(doc[1..], c, entries1, e);
        var i :| 0 <= i < |doc[1..]| && HasLiteral(doc[1..][i], e.1) && RefersTo(doc[1..][i], rest[i], e.0);
        assert doc[i + 1] == doc[1..][i] && doc'[i + 1] == rest[i];
      }
    }
  }

  lemma AddedByThisEntry(piece: Piece, c: NameConstraints, entries: Entries, e: (string, string))
    requires piece.EnvEntry? ==> WellSpelled(piece.node)
    requires GoodEntries(c, entries) && e in RewritePiece(piece, c, entries).1 && e !in entries
    ensures HasLiteral(piece, e.1) && RefersTo(piece, RewritePiece(piece, c, entries).0, e.0)
  {
    var literal := LiteralEnvValue(piece.key, piece.node).value;
    LiteralIff(piece, literal);
    LiteralIsSafe(piece.key, piece.node);
    AllocationKeeps(c, entries, piece.service, piece.key, literal);
    hide Candidates, GoodEntries, LiteralEnvValue, ReplaceScalar, WellSpelled, IsUsable, HasLiteral;
    var name := FirstUsable(c, entries, Candidates(piece.service, piece.key), literal);
    CarriesName(c, Assign(c, entries, name, literal), name.value, literal);
    ReplaceGivesReference(piece.node, piece.key, name.value);
  }
}
