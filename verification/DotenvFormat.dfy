/** Writing `.env` lines that read back unchanged (server/src/infrastructure/dotenv-format.ts) and the
    merge of the extracted block into the old file (server/src/application/migration-service.ts). */
module DotenvFormat {
  import opened Text
  import opened HostPorts

  predicate IsUnsafe(c: char) {
    c == '$' || c == '\\' || c == '\'' || c == '"' || c == '\r' || c == '\n' || c == '\0'
  }

  predicate IsPlain(c: char) {
    IsIdentChar(c) || c in "./:@%+,=-"
  }

  /** The value can be written to `.env` and read back identically. */
  predicate IsDotenvSafeValue(value: string) {
    forall c :: c in value ==> !IsUnsafe(c)
  }

  predicate IsPlainValue(value: string) {
    forall c :: c in value ==> IsPlain(c)
  }

  /** What is behind the `=` of a formatted line. */
  function Quoted(value: string): string {
    if IsPlainValue(value) then value else "'" + value + "'"
  }

  function FormatDotenvLine(name: string, value: string): string {
    name + "=" + Quoted(value)
  }

  /** Values of letters, digits and `_./:@%+,=-` stay unquoted; every other one is put in single quotes. */
  lemma FormattedLineIs(name: string, value: string)
    ensures var plain := forall c :: c in value ==>
        'A' <= c <= 'Z' || 'a' <= c <= 'z' || '0' <= c <= '9' || c in "_./:@%+,=-";
      FormatDotenvLine(name, value) == name + "=" + (if plain then value else "'" + value + "'")
  {
    assert forall c :: c in "_./:@%+,=-" <==> c == '_' || c in "./:@%+,=-";
  }

  lemma TrimNothing(s: string)
    requires s == "" || (!IsSpace(s[0]) && !IsSpace(s[|s| - 1]))
    ensures Trim(s) == s
  {
  }

  /** A name starts neither a comment nor an `export ` prefix. */
  lemma NameIsNoPrefix(name: string, rest: string)
    requires IsName(name)
    ensures name[0] != '#' && !(EXPORT <= name + "=" + rest)
  {
    var line := name + "=" + rest;
    assert line[|name|] == '=';
    if |name| >= 7 {
      assert line[6] == name[6] && name[6] in name;
    } else {
      assert EXPORT[|name|] != '=';
    }
  }

  lemma QuotedReadsBack(value: string)
    requires IsDotenvSafeValue(value)
    ensures Trim(Quoted(value)) == Quoted(value) && Unquote(Quoted(value)) == value
    ensures Quoted(value) == "" || !IsSpace(Quoted(value)[|Quoted(value)| - 1])
    ensures '\n' !in Quoted(value)
  {
    var text := Quoted(value);
    if IsPlainValue(value) {
      if value != "" {
        assert IsPlain(value[0]) && IsPlain(value[|value| - 1]);
      }
    } else {
      assert text[1..|text| - 1] == value;
    }
    TrimNothing(text);
  }

  lemma NameTrims(name: string)
    requires IsName(name)
    ensures Trim(name) == name && '=' !in name && '\n' !in name && !IsSpace(name[0])
  {
    assert name[0] in name && name[|name| - 1] in name;
    TrimNothing(name);
  }

  /** A `NAME=...` text splits at its first `=`, back into the name and the value. */
  lemma BodyReadsBack(name: string, value: string)
    requires IsName(name) && IsDotenvSafeValue(value)
    ensures BodyAssignment(name + "=" + Quoted(value)) == Some((name, value))
  {
    var body := name + "=" + Quoted(value);
    NameTrims(name);
    QuotedReadsBack(value);
    IndexOfIs(name, '=', Quoted(value));
    assert body[..|name|] == name && body[|name| + 1..] == Quoted(value);
  }

  lemma LineTrims(name: string, value: string)
    requires IsName(name) && IsDotenvSafeValue(value)
    ensures Trim(name + "=" + Quoted(value)) == name + "=" + Quoted(value)
  {
    var line := name + "=" + Quoted(value);
    NameTrims(name);
    QuotedReadsBack(value);
    assert line[0] == name[0];
    assert line[|line| - 1] == if Quoted(value) == "" then '=' else Quoted(value)[|Quoted(value)| - 1];
    TrimNothing(line);
  }

  /** One written line reads back as exactly the assignment it was written for. */
  lemma FormattedLineReadsBack(name: string, value: string)
    requires IsName(name) && IsDotenvSafeValue(value)
    ensures LineAssignment(FormatDotenvLine(name, value)) == Some((name, value))
    ensures '\n' !in FormatDotenvLine(name, value)
  {
    var line := FormatDotenvLine(name, value);
    QuotedReadsBack(value);
    NameIsNoPrefix(name, Quoted(value));
    hide BodyAssignment, LineAssignment, Trim, Quoted;
    NameTrims(name);
    BodyReadsBack(name, value);
    LineTrims(name, value);
    assert line[0] == name[0];
    LineIsBody(line);
  }

  /** The extracted entries, in the order their names were allocated. */
  type Entries = seq<(string, string)>

  predicate WritableEntries(entries: Entries) {
    forall e :: e in entries ==> IsName(e.0) && IsDotenvSafeValue(e.1)
  }

  function EntryLines(entries: Entries): seq<string> {
    seq(|entries|, i requires 0 <= i < |entries| => FormatDotenvLine(entries[i].0, entries[i].1))
  }

  function ExtractedEnv(entries: Entries): string {
    Join(EntryLines(entries), '\n')
  }

  const EXTRACTED_HEADER := "# Extracted from docker-compose.yml"

  /** The new stack's `.env` text; `None` when no file is written. */
  function MergedEnv(existingEnv: Option<string>, extractedEnv: string): Option<string> {
    if extractedEnv == "" then existingEnv
    else if existingEnv.None? || existingEnv.value == "" then Some(extractedEnv)
    else Some(AppendedBlock(existingEnv.value, EXTRACTED_HEADER, extractedEnv))
  }

  function AppendedBlock(existing: string, header: string, text: string): string {
    existing + ['\n'] + (['\n'] + (header + ['\n'] + text))
  }

  /** The old text is kept as it is, with its comments, and the extracted lines come last; without either there is no
      file. */
  lemma OldTextIsKept(existingEnv: Option<string>, extractedEnv: string)
    ensures var merged := MergedEnv(existingEnv, extractedEnv);
      && (merged.None? <==> existingEnv.None? && extractedEnv == "")
      && (existingEnv.Some? ==> existingEnv.value <= merged.value)
      && (extractedEnv != "" ==>
            |extractedEnv| <= |merged.value| && merged.value[|merged.value| - |extractedEnv|..] == extractedEnv)
      && (extractedEnv == "" ==> merged == existingEnv)
  {
  }

  /** What a possibly missing `.env` assigns. */
  function EnvOf(text: Option<string>): Env {
    match text
    case None => map[]
    case Some(content) => EnvAssignments(content)
  }

  function EntryMap(entries: Entries): Env {
    Assigned(Assignments(entries))
  }

  lemma EntryReadsBack(entries: Entries, i: nat)
    requires WritableEntries(entries) && i < |entries|
    ensures LineAssignment(EntryLines(entries)[i]) == Some(entries[i])
    ensures '\n' !in EntryLines(entries)[i] && EntryLines(entries)[i] != ""
  {
    assert entries[i] in entries;
    FormattedLineReadsBack(entries[i].0, entries[i].1);
  }

  function Assignments(entries: Entries): seq<Assignment> {
    seq(|entries|, i requires 0 <= i < |entries| => Some(entries[i]))
  }

  lemma EntriesReadBack(entries: Entries)
    requires WritableEntries(entries) && entries != []
    ensures ExtractedEnv(entries) != ""
    ensures Split(ExtractedEnv(entries), '\n') == EntryLines(entries)
    ensures EnvAssignments(ExtractedEnv(entries)) == EntryMap(entries)
  {
    hide LineAssignment, FormatDotenvLine, Split;
    var lines := EntryLines(entries);
    forall i | 0 <= i < |entries|
      ensures LineAssignment(lines[i]) == Some(entries[i]) && '\n' !in lines[i] && lines[i] != ""
    {
      EntryReadsBack(entries, i);
    }
    SplitJoin(lines, '\n');
    assert lines[0] <= Join(lines, '\n');
    assert LineAssignments(lines) == Assignments(entries);
  }

  lemma NothingWritten()
    ensures ExtractedEnv([]) == "" && EntryMap([]) == map[] && EnvAssignments("") == map[]
  {
    var nothing: seq<Assignment> := [None];
    assert LineAssignments([""]) == nothing && nothing[..0] == [];
  }

  /** Reading the merged file gives the old assignments overridden by the new entries, nothing else. */
  lemma MergedEnvReadsBack(existingEnv: Option<string>, entries: Entries)
    requires WritableEntries(entries)
    ensures EnvOf(MergedEnv(existingEnv, ExtractedEnv(entries))) == EnvOf(existingEnv) + EntryMap(entries)
  {
    hide EnvAssignments, ExtractedEnv, EntryMap, AppendedBlock;
    NothingWritten();
    if entries != [] {
      EntriesReadBack(entries);
      if existingEnv.Some? && existingEnv.value != "" {
        HeaderAssignsNothing();
        MergedLines(existingEnv.value, EXTRACTED_HEADER, ExtractedEnv(entries));
      }
    }
  }

  lemma MergedSplit(existing: string, header: string, text: string)
    requires '\n' !in header
    ensures Split(AppendedBlock(existing, header, text), '\n') ==
            Split(existing, '\n') + (["", header] + Split(text, '\n'))
  {
    hide Split;
    var block := header + ['\n'] + text;
    SplitAppend(existing, '\n', ['\n'] + block);
    SplitCons('\n', '\n', block);
    SplitAppend(header, '\n', text);
    SplitWithout(header, '\n');
  }

  /** A block of lines that assigns nothing can be skipped. */
  lemma SkipBlock(before: seq<string>, middle: seq<string>, after: seq<string>)
    requires Assigned(LineAssignments(middle)) == map[]
    ensures Assigned(LineAssignments(before + (middle + after))) ==
            Assigned(LineAssignments(before)) + Assigned(LineAssignments(after))
  {
    LineAssignmentsAppend(before, middle + after);
    LineAssignmentsAppend(middle, after);
    AssignedAppend(LineAssignments(before), LineAssignments(middle) + LineAssignments(after));
    AssignedAppend(LineAssignments(middle), LineAssignments(after));
  }

  lemma MergedLines(existing: string, header: string, text: string)
    requires '\n' !in header && Assigned(LineAssignments(["", header])) == map[]
    ensures EnvAssignments(AppendedBlock(existing, header, text)) == EnvAssignments(existing) + EnvAssignments(text)
  {
    MergedSplit(existing, header, text);
    SkipBlock(Split(existing, '\n'), ["", header], Split(text, '\n'));
  }

  lemma HeaderAssignsNothing()
    ensures '\n' !in EXTRACTED_HEADER && Assigned(LineAssignments(["", EXTRACTED_HEADER])) == map[]
  {
    hide Assigned, LineAssignments, TrimEnd, TrimStart;
    CommentAssignsNothing(EXTRACTED_HEADER);
  }

  lemma CommentAssignsNothing(comment: string)
    requires comment != "" && comment[0] == '#' && !IsSpace(comment[|comment| - 1])
    ensures Assigned(LineAssignments(["", comment])) == map[]
  {
    hide BodyAssignment;
    TrimNothing(comment);
    var nothing: seq<Assignment> := [None, None];
    assert LineAssignments(["", comment]) == nothing;
    assert nothing[..1] == [None] && nothing[..1][..0] == [];
  }

  /** The names of a list of entries are all different. */
  predicate DistinctNames(entries: Entries) {
    forall i, j :: 0 <= i < j < |entries| ==> entries[i].0 != entries[j].0
  }

  /** With distinct names every entry is found under its name with its own value. */
  lemma {:induction false} EntryMapHolds(entries: Entries)
    requires DistinctNames(entries)
    ensures EntryMap(entries).Keys == set e | e in entries :: e.0
    ensures forall e :: e in entries ==> Lookup(EntryMap(entries), e.0) == Some(e.1)
  {
    if entries != [] {
      var init := entries[..|entries| - 1];
      var last := entries[|entries| - 1];
      EntryMapHolds(init);
      assert Assignments(entries)[..|init|] == Assignments(init);
      assert EntryMap(entries) == EntryMap(init)[last.0 := last.1];
      assert entries == init + [last];
      forall e | e in entries
        ensures Lookup(EntryMap(entries), e.0) == Some(e.1)
      {
        var i :| 0 <= i < |entries| && entries[i] == e;
        if i < |init| {
          assert init[i] == e && entries[|init|] == last;
        }
      }
    }
  }

  /** Round trip with a frame: old assignments are all kept, and each fresh entry reads back unchanged. */
  lemma DotenvRoundTrip(existingEnv: Option<string>, entries: Entries)
    requires WritableEntries(entries) && DistinctNames(entries)
    requires forall e :: e in entries ==> e.0 !in EnvOf(existingEnv)
    ensures var merged := EnvOf(MergedEnv(existingEnv, ExtractedEnv(entries)));
      && (forall name :: name in EnvOf(existingEnv) ==> Lookup(merged, name) == Some(EnvOf(existingEnv)[name]))
      && (forall e :: e in entries ==> Lookup(merged, e.0) == Some(e.1))
      && merged.Keys == EnvOf(existingEnv).Keys + set e | e in entries :: e.0
  {
    MergedEnvReadsBack(existingEnv, entries);
    EntryMapHolds(entries);
  }
}
