/** The Docker Compose project name a stack runs under (server/src/domain/compose-project-name.ts), and
    the migration's check that the old and the new stack do not share one. */
module ComposeProjectName {
  import opened Text
  import opened HostPorts
  import opened DotenvFormat
  import opened ComposeRewriter

  datatype NameSource = EnvFile | ComposeFile | Directory

  datatype ProjectName = ProjectName(name: string, source: NameSource)

  predicate IsProjectChar(c: char) {
    'a' <= c <= 'z' || '0' <= c <= '9' || c == '_' || c == '-'
  }

  /** The one character of `c`'s lower case that a project name can hold; `U+0130` has an `i` and a combining dot. */
  function ProjectChar(c: char): char {
    if c == '\U{0130}' then 'i' else LowerChar(c)
  }

  function ProjectChars(raw: string): (r: string)
    ensures forall c :: c in r ==> IsProjectChar(c)
  {
    if raw == "" then ""
    else (if IsProjectChar(ProjectChar(raw[0])) then [ProjectChar(raw[0])] else []) + ProjectChars(raw[1..])
  }

  function StripLeading(s: string): string {
    if s != "" && (s[0] == '_' || s[0] == '-') then StripLeading(s[1..]) else s
  }

  function Normalize(raw: string): string {
    StripLeading(ProjectChars(raw))
  }

  lemma {:induction false} StrippedIs(s: string)
    ensures StripLeading(s) != "" ==> StripLeading(s)[0] != '_' && StripLeading(s)[0] != '-'
    ensures forall c :: c in StripLeading(s) ==> c in s
  {
    if s != "" && (s[0] == '_' || s[0] == '-') {
      StrippedIs(s[1..]);
    }
  }

  lemma {:induction false} ProjectCharsFixed(s: string)
    requires forall c :: c in s ==> IsProjectChar(c)
    ensures ProjectChars(s) == s
  {
    if s != "" {
      assert s[0] in s;
      ProjectCharsFixed(s[1..]);
    }
  }

  /** A normalised name is a legal project name, and normalising it again changes nothing. */
  lemma NormalizedIsLegal(raw: string)
    ensures var name := Normalize(raw);
      && (forall c :: c in name ==> IsProjectChar(c))
      && (name != "" ==> name[0] != '_' && name[0] != '-')
      && Normalize(name) == name
  {
    StrippedIs(ProjectChars(raw));
    ProjectCharsFixed(Normalize(raw));
  }

  lemma {:induction false} ProjectCharsAppend(a: string, b: string)
    ensures ProjectChars(a + b) == ProjectChars(a) + ProjectChars(b)
  {
    hide ProjectChar, IsProjectChar;
    if a == "" {
      assert a + b == b;
    } else {
      assert (a + b)[1..] == a[1..] + b;
      ProjectCharsAppend(a[1..], b);
    }
  }

  lemma OneProjectChar(c: char)
    ensures ProjectChars([c]) == if IsProjectChar(ProjectChar(c)) then [ProjectChar(c)] else []
  {
    assert [c][1..] == "";
  }

  /** A legal name is kept as it is. */
  lemma LegalNamesAreKept(name: string)
    requires forall c :: c in name ==> IsProjectChar(c)
    requires name != "" ==> name[0] != '_' && name[0] != '-'
    ensures Normalize(name) == name
  {
    ProjectCharsFixed(name);
  }

  lemma ProjectCharsAround(before: string, c: char, after: string)
    ensures ProjectChars(before + [c] + after) == ProjectChars(before) + ProjectChars([c]) + ProjectChars(after)
  {
    hide ProjectChars;
    ProjectCharsAppend(before + [c], after);
    ProjectCharsAppend(before, [c]);
  }

  /** What normalising does to single characters: capitals become small. */
  lemma CapitalsBecomeSmall(before: string, c: char, after: string)
    requires 'A' <= c <= 'Z'
    ensures Normalize(before + [c] + after) == Normalize(before + [(c as int + 32) as char] + after)
  {
    var small := (c as int + 32) as char;
    OneProjectChar(c);
    OneProjectChar(small);
    hide ProjectChars, StripLeading;
    ProjectCharsAround(before, c, after);
    ProjectCharsAround(before, small, after);
  }

  /** Others than letters, digits, `_` and `-` vanish. */
  lemma OthersVanish(before: string, c: char, after: string)
    requires c != '_' && c != '-' && !('A' <= c <= 'Z' || 'a' <= c <= 'z' || '0' <= c <= '9')
    requires c != '\U{0130}' && c != '\U{212A}'
    ensures Normalize(before + [c] + after) == Normalize(before + after)
  {
    OneProjectChar(c);
    hide ProjectChars, StripLeading;
    ProjectCharsAround(before, c, after);
    ProjectCharsAppend(before, after);
    assert ProjectChars(before) + [] == ProjectChars(before);
  }

  /** Two other capitals have a small letter of their own, or one with a dot that vanishes. */
  lemma ForeignCapitals(before: string, after: string)
    ensures Normalize(before + ['\U{0130}'] + after) == Normalize(before + "i" + after)
    ensures Normalize(before + ['\U{212A}'] + after) == Normalize(before + "k" + after)
  {
    OneProjectChar('\U{0130}');
    OneProjectChar('\U{212A}');
    OneProjectChar('i');
    OneProjectChar('k');
    hide ProjectChars, StripLeading;
    ProjectCharsAround(before, '\U{0130}', after);
    ProjectCharsAround(before, '\U{212A}', after);
    ProjectCharsAround(before, 'i', after);
    ProjectCharsAround(before, 'k', after);
  }

  /** And so do `_` and `-` at the start. */
  lemma LeadingMarksVanish(c: char, after: string)
    requires c == '_' || c == '-'
    ensures Normalize([c] + after) == Normalize(after)
  {
    OneProjectChar(c);
    hide ProjectChars;
    ProjectCharsAppend([c], after);
    assert ([c] + ProjectChars(after))[1..] == ProjectChars(after);
  }

  const PROJECT_NAME_VARIABLE := "COMPOSE_PROJECT_NAME"

  /** The candidates in Compose's order; `name` is the compose file's top-level `name:`, if it is a string. */
  function Candidates(name: Option<string>, env: Env, directoryName: string): seq<(Option<string>, NameSource)> {
    [(Lookup(env, PROJECT_NAME_VARIABLE), EnvFile),
     (if name.Some? then Interpolate(name.value, env) else None, ComposeFile),
     (Some(directoryName), Directory)]
  }

  function FirstUsable(candidates: seq<(Option<string>, NameSource)>): ProjectName {
    if candidates == [] then ProjectName("", Directory)
    else
      var (raw, source) := candidates[0];
      var name := if raw.None? then "" else Normalize(raw.value);
      if name != "" then ProjectName(name, source) else FirstUsable(candidates[1..])
  }

  function ComposeProjectName(name: Option<string>, envContent: Option<string>, directoryName: string): ProjectName {
    FirstUsable(Candidates(name, EnvOf(envContent), directoryName))
  }

  /** The compose file's top-level `name:` references a name that a literal could take, because the file's text does
      not spell the reference. */
  predicate NameHidesMovable(doc: Document, name: Option<string>) {
    name.Some? && exists h :: h in ReferencedNames(name.value) && IsHiddenMovable(doc, h)
  }

  /** What the new stack's `.env` assigns. */
  function NewEnv(doc: Document, existingEnv: Option<string>, reserved: set<string>): Option<string> {
    MergedEnv(existingEnv, ExtractedEnv(Rewritten(doc, existingEnv, reserved).1))
  }

  lemma AllocatedInNewEnv(doc: Document, existingEnv: Option<string>, reserved: set<string>, name: string)
    requires AllWellSpelled(doc)
    ensures var env, env' := EnvOf(existingEnv), EnvOf(NewEnv(doc, existingEnv, reserved));
      if name in NewNames(Rewritten(doc, existingEnv, reserved).1) then
        Lookup(env', name) != Lookup(env, name) && !ConfiguresCompose(name)
      else Lookup(env', name) == Lookup(env, name)
  {
    hide Source, RewriteFrom, ReferencedNames, MergedEnv, ExtractedEnv, EnvOf, PieceRewritten;
    var c := Constraints(doc, existingEnv, reserved);
    var entries := Rewritten(doc, existingEnv, reserved).1;
    RewriteKeeps(doc, c, []);
    NewVariables(c, existingEnv, entries, map[]);
    assert Variables(EnvOf(existingEnv), map[]) == EnvOf(existingEnv);
    assert Variables(EnvOf(MergedEnv(existingEnv, ExtractedEnv(entries))), map[]) ==
      EnvOf(NewEnv(doc, existingEnv, reserved));
  }

  /** The name predicted from the old files is the name the rewritten files give, in every directory. */
  lemma PredictedNameHolds(doc: Document, name: Option<string>, existingEnv: Option<string>, reserved: set<string>,
                           directoryName: string)
    requires AllWellSpelled(doc) && !NameHidesMovable(doc, name)
    ensures ComposeProjectName(name, NewEnv(doc, existingEnv, reserved), directoryName) ==
      ComposeProjectName(name, existingEnv, directoryName)
    ensures name.Some? ==> NameReferencesKept(doc, name.value, existingEnv, reserved)
  {
    hide Rewritten, ReferencedNames, NewEnv, EnvOf, FirstUsable, Interpolate, IsHiddenMovable, NewNames;
    var env, env' := EnvOf(existingEnv), EnvOf(NewEnv(doc, existingEnv, reserved));
    assert ConfiguresCompose(PROJECT_NAME_VARIABLE);
    AllocatedInNewEnv(doc, existingEnv, reserved, PROJECT_NAME_VARIABLE);
    if name.Some? {
      forall h | h in ReferencedNames(name.value)
        ensures Lookup(env, h) == Lookup(env', h)
      {
        AllocatedInNewEnv(doc, existingEnv, reserved, h);
        if h in NewNames(Rewritten(doc, existingEnv, reserved).1) {
          AllocatedIsMovable(doc, existingEnv, reserved, h);
        }
      }
      InterpolationNeedsOnlyReferences(name.value, env, env');
    }
  }

  /** Every variable the top-level `name:` uses resolves as before. */
  ghost predicate NameReferencesKept(doc: Document, name: string, existingEnv: Option<string>, reserved: set<string>) {
    forall h :: h in ReferencedNames(name) ==>
      Lookup(EnvOf(NewEnv(doc, existingEnv, reserved)), h) == Lookup(EnvOf(existingEnv), h)
  }

  ghost predicate PredictionHolds(doc: Document, name: Option<string>, existingEnv: Option<string>, reserved: set<string>) {
    && (name.Some? ==> NameReferencesKept(doc, name.value, existingEnv, reserved))
    && forall directoryName :: ComposeProjectName(name, NewEnv(doc, existingEnv, reserved), directoryName) ==
                               ComposeProjectName(name, existingEnv, directoryName)
  }

  /** For exactly these files the prediction rests on firm ground, whatever the old `.env` and the reserved names: the
      variables of `name:` and the project name are the same before and after. In every other file some rewrite gives a
      variable of `name:` another value. */
  lemma PredictionHoldsIff(doc: Document, name: Option<string>)
    requires AllWellSpelled(doc)
    ensures (forall existingEnv: Option<string>, reserved: set<string> :: PredictionHolds(doc, name, existingEnv, reserved))
      <==> !NameHidesMovable(doc, name)
  {
    hide Rewritten, ReferencedNames, NewEnv, EnvOf, ComposeProjectName, IsHiddenMovable, NewNames, AllCandidates;
    if NameHidesMovable(doc, name) {
      var h :| h in ReferencedNames(name.value) && IsHiddenMovable(doc, h);
      var reserved := AllCandidates(doc) - {h};
      HiddenNameIsAllocated(doc, h);
      AllocatedInNewEnv(doc, None, reserved, h);
      assert !PredictionHolds(doc, name, None, reserved);
    } else {
      forall existingEnv: Option<string>, reserved: set<string>
        ensures PredictionHolds(doc, name, existingEnv, reserved)
      {
        forall directoryName
          ensures ComposeProjectName(name, NewEnv(doc, existingEnv, reserved), directoryName) ==
            ComposeProjectName(name, existingEnv, directoryName)
        {
          PredictedNameHolds(doc, name, existingEnv, reserved, directoryName);
        }
        PredictedNameHolds(doc, name, existingEnv, reserved, "");
      }
    }
  }

  /** The project name both stacks would run under; `None` when they differ (`sharedProjectName`). */
  function SharedProjectName(name: Option<string>, envContent: Option<string>, originalDirName: string, stackId: string)
    : Option<ProjectName>
  {
    var current := ComposeProjectName(name, envContent, originalDirName);
    var next := ComposeProjectName(name, envContent, stackId);
    if current.name != "" && current.name == next.name then Some(current) else None
  }

  /** The refusal, decided on the old files, is exactly about the names the two stacks really get. */
  lemma SharedNameIsExact(doc: Document, name: Option<string>, existingEnv: Option<string>, reserved: set<string>,
                          originalDirName: string, stackId: string)
    requires AllWellSpelled(doc) && !NameHidesMovable(doc, name)
    ensures var before := ComposeProjectName(name, existingEnv, originalDirName).name;
      var after := ComposeProjectName(name, NewEnv(doc, existingEnv, reserved), stackId).name;
      SharedProjectName(name, existingEnv, originalDirName, stackId).Some? <==> before == after && before != ""
  {
    hide ComposeProjectName, NewEnv, Rewritten, NameHidesMovable, NameReferencesKept;
    PredictedNameHolds(doc, name, existingEnv, reserved, stackId);
  }

  lemma Normalized()
    ensures Normalize("80") == "80" && Normalize("shop") == "shop"
  {
    ProjectCharsFixed("80");
    ProjectCharsFixed("shop");
  }

  /** With `name: "\x24PORT"` the refusal misses a shared name: the old stack runs in a directory called `80`, the new
      one is to be called `shop`, and the extracted PORT gives it the name `80` as well. */
  lemma HiddenNameIsShared(before: string, between: string)
    requires '$' !in before && '$' !in between
    ensures var doc := HidingDocument(before, between, Other(HIDDEN_PORT));
      && SharedProjectName(Some("$PORT"), None, "80", "shop").None?
      && ComposeProjectName(Some("$PORT"), None, "80").name == "80"
      && ComposeProjectName(Some("$PORT"), NewEnv(doc, None, {}), "shop").name == "80"
  {
    var doc := HidingDocument(before, between, Other(HIDDEN_PORT));
    var entries := [("PORT", "80")];
    hide Rewritten, EnvOf, MergedEnv, ExtractedEnv, Interpolate, HidingDocument, Normalize;
    HiddenRewrite(before, between, Other(HIDDEN_PORT));
    var env' := EnvOf(MergedEnv(None, ExtractedEnv(entries)));
    assert EnvOf(NewEnv(doc, None, {})) == env';
    PortAppears();
    NoProjectName();
    Normalized();
    assert "$PORT" == "$" + "PORT";
    InterpolateBare("PORT", map[]);
    InterpolateBare("PORT", env');
    ThreeCandidates(Some("$PORT"), map[], "80");
    ThreeCandidates(Some("$PORT"), map[], "shop");
    ThreeCandidates(Some("$PORT"), env', "shop");
    assert EnvOf(None) == map[] by {
      NothingAssigned();
    }
  }

  lemma NothingAssigned()
    ensures EnvOf(None) == map[]
  {
  }

  lemma NoProjectName()
    ensures Lookup(EnvOf(MergedEnv(None, ExtractedEnv([("PORT", "80")]))), PROJECT_NAME_VARIABLE).None?
  {
    var entries := [("PORT", "80")];
    hide ExtractedEnv, EntryMap, EnvOf;
    MergedEnvReadsBack(None, entries);
    EntryMapHolds(entries);
    NothingAssigned();
  }

  /** The first of the three sources that gives a name. */
  lemma ThreeCandidates(name: Option<string>, env: Env, directoryName: string)
    ensures FirstUsable(Candidates(name, env, directoryName)) ==
      var first := Lookup(env, PROJECT_NAME_VARIABLE);
      var second := if name.Some? then Interpolate(name.value, env) else None;
      if first.Some? && Normalize(first.value) != "" then ProjectName(Normalize(first.value), EnvFile)
      else if second.Some? && Normalize(second.value) != "" then ProjectName(Normalize(second.value), ComposeFile)
      else ProjectName(Normalize(directoryName), Directory)
  {
    hide Interpolate, Normalize, Lookup;
    var candidates := Candidates(name, env, directoryName);
    var second, third := candidates[1..], candidates[1..][1..];
    assert candidates[0].1 == EnvFile && second[0].1 == ComposeFile && third == [(Some(directoryName), Directory)];
    assert third[1..] == [] && FirstUsable([]) == ProjectName("", Directory);
    assert FirstUsable(third) == ProjectName(Normalize(directoryName), Directory);
    assert FirstUsable(second) ==
      if second[0].0.Some? && Normalize(second[0].0.value) != "" then ProjectName(Normalize(second[0].0.value), ComposeFile)
      else FirstUsable(third);
  }
}
