/** The lossless `.env` editor (client/src/lib/env-file.ts). */
module EnvFile {
  import opened Text

  datatype EnvLine = Variable(key: string, value: string, lineIndex: nat) | Passthrough(raw: string, lineIndex: nat)

  /** One row of the table; `None` marks a row that is not in the document yet. */
  datatype EnvTableRow = EnvTableRow(key: string, value: string, lineIndex: Option<nat>)

  /** What `.` in a regular expression does not match. */
  predicate IsLineTerminator(c: char) {
    c == '\n' || c == '\r' || c == '\U{2028}' || c == '\U{2029}'
  }

  predicate IsOneLine(s: string) {
    forall c :: c in s ==> !IsLineTerminator(c)
  }

  predicate IsVariableLine(raw: string) {
    var split := IndexOf(raw, '=');
    split < |raw| && IsName(raw[..split]) && IsOneLine(raw[split + 1..])
  }

  function ParseLine(raw: string, lineIndex: nat): EnvLine {
    var split := IndexOf(raw, '=');
    if IsVariableLine(raw) then Variable(raw[..split], raw[split + 1..], lineIndex) else Passthrough(raw, lineIndex)
  }

  function ParseEnvFile(content: string): seq<EnvLine> {
    var raws := Split(content, '\n');
    seq(|raws|, i requires 0 <= i < |raws| => ParseLine(raws[i], i))
  }

  function Assignment(key: string, value: string): string {
    key + ['='] + value
  }

  function LineText(line: EnvLine): string {
    match line
    case Variable(key, value, _) => Assignment(key, value)
    case Passthrough(raw, _) => raw
  }

  function SerializeEnvFile(lines: seq<EnvLine>): string {
    Join(seq(|lines|, i requires 0 <= i < |lines| => LineText(lines[i])), '\n')
  }

  function RowOf(line: EnvLine): seq<EnvTableRow> {
    if line.Variable? then [EnvTableRow(line.key, line.value, Some(line.lineIndex))] else []
  }

  function ToTableRows(lines: seq<EnvLine>): seq<EnvTableRow> {
    if lines == [] then [] else ToTableRows(lines[..|lines| - 1]) + RowOf(lines[|lines| - 1])
  }

  // ----- The identities -----

  lemma LineTextOfParsed(raw: string, i: nat)
    ensures LineText(ParseLine(raw, i)) == raw
  {
    var split := IndexOf(raw, '=');
    if IsVariableLine(raw) {
      assert raw == raw[..split] + ['='] + raw[split + 1..];
    }
  }

  /** Parsing loses nothing, for any text whatsoever. */
  lemma SerializeParse(s: string)
    ensures SerializeEnvFile(ParseEnvFile(s)) == s
  {
    var raws, lines := Split(s, '\n'), ParseEnvFile(s);
    hide ParseLine, LineText;
    forall i | 0 <= i < |raws|
      ensures LineText(lines[i]) == raws[i]
    {
      LineTextOfParsed(raws[i], i);
    }
    assert seq(|lines|, i requires 0 <= i < |lines| => LineText(lines[i])) == raws;
    JoinSplit(s, '\n');
  }

  /** Exactly which lines are variables: a name, `=`, and the rest of a single line. */
  lemma VariableIff(raw: string, i: nat, key: string, value: string)
    ensures ParseLine(raw, i) == Variable(key, value, i) <==>
      IsName(key) && IsOneLine(value) && raw == key + "=" + value
  {
    var split := IndexOf(raw, '=');
    if IsName(key) && raw == key + "=" + value {
      assert raw == key + ['='] + value && '=' !in key;
      IndexOfIs(key, '=', value);
      assert raw[..|key|] == key && raw[|key| + 1..] == value;
    }
    if split < |raw| {
      assert raw == raw[..split] + "=" + raw[split + 1..];
    }
  }

  // ----- Applying edited rows -----

  /** The row for a line of the document; of several the last one counts. */
  function RowFor(rows: seq<EnvTableRow>, lineIndex: nat): Option<EnvTableRow> {
    if rows == [] then None
    else if rows[|rows| - 1].lineIndex == Some(lineIndex) then Some(rows[|rows| - 1])
    else RowFor(rows[..|rows| - 1], lineIndex)
  }

  /** It is the last row with that line's index. */
  lemma {:induction false} LastRowWins(rows: seq<EnvTableRow>, lineIndex: nat, i: nat)
    requires i < |rows| && rows[i].lineIndex == Some(lineIndex)
    requires forall j :: i < j < |rows| ==> rows[j].lineIndex != Some(lineIndex)
    ensures RowFor(rows, lineIndex) == Some(rows[i])
  {
    if i < |rows| - 1 {
      LastRowWins(rows[..|rows| - 1], lineIndex, i);
    }
  }

  function NewTexts(rows: seq<EnvTableRow>): seq<string> {
    if rows == [] then []
    else
      var last := rows[|rows| - 1];
      NewTexts(rows[..|rows| - 1]) + if last.lineIndex.None? then [Assignment(last.key, last.value)] else []
  }

  function Kept(line: EnvLine, rows: seq<EnvTableRow>): seq<string> {
    match line
    case Passthrough(raw, _) => [raw]
    case Variable(_, _, lineIndex) =>
      var row := RowFor(rows, lineIndex);
      if row.Some? then [Assignment(row.value.key, row.value.value)] else []
  }

  function KeptTexts(lines: seq<EnvLine>, rows: seq<EnvTableRow>): seq<string> {
    if lines == [] then [] else KeptTexts(lines[..|lines| - 1], rows) + Kept(lines[|lines| - 1], rows)
  }

  predicate EndsWithNewline(lines: seq<EnvLine>) {
    lines != [] && lines[|lines| - 1].Passthrough? && lines[|lines| - 1].raw == ""
  }

  /** New lines go to the end, but before the empty line behind a final newline. */
  function Inserted(lines: seq<EnvLine>, kept: seq<string>, added: seq<string>): seq<string> {
    if added != [] && EndsWithNewline(lines) && kept != [] && kept[|kept| - 1] == "" then
      kept[..|kept| - 1] + added + [""]
    else kept + added
  }

  function OutputLines(lines: seq<EnvLine>, rows: seq<EnvTableRow>): seq<string> {
    Inserted(lines, KeptTexts(lines, rows), NewTexts(rows))
  }

  function Applied(lines: seq<EnvLine>, rows: seq<EnvTableRow>): string {
    Join(OutputLines(lines, rows), '\n')
  }

  method ApplyTableRows(lines: seq<EnvLine>, rows: seq<EnvTableRow>) returns (text: string)
    ensures text == Applied(lines, rows)
  {
    var rowsByLineIndex: map<nat, EnvTableRow> := map[];
    var newLines: seq<string> := [];
    for i := 0 to |rows|
      invariant newLines == NewTexts(rows[..i])
      invariant forall k: nat :: RowFor(rows[..i], k) == if k in rowsByLineIndex then Some(rowsByLineIndex[k]) else None
    {
      var row := rows[i];
      assert rows[..i + 1][..i] == rows[..i];
      if row.lineIndex.None? {
        newLines := newLines + [Assignment(row.key, row.value)];
      } else {
        rowsByLineIndex := rowsByLineIndex[row.lineIndex.value := row];
      }
    }
    assert rows[..|rows|] == rows;
    var output: seq<string> := [];
    for i := 0 to |lines|
      invariant output == KeptTexts(lines[..i], rows)
    {
      var line := lines[i];
      assert lines[..i + 1][..i] == lines[..i];
      if line.Passthrough? {
        output := output + [line.raw];
      } else if line.lineIndex in rowsByLineIndex {
        var row := rowsByLineIndex[line.lineIndex];
        output := output + [Assignment(row.key, row.value)];
      }
    }
    assert lines[..|lines|] == lines;
    ghost var kept := output;
    assert kept + [] == kept;
    if newLines != [] {
      if EndsWithNewline(lines) && output != [] && output[|output| - 1] == "" {
        assert output[|output| - 1..] == [""];
        output := output[..|output| - 1] + newLines + output[|output| - 1..];
      } else {
        output := output + newLines;
      }
    }
    text := Join(output, '\n');
  }

  lemma {:induction false} NothingNew(lines: seq<EnvLine>)
    ensures NewTexts(ToTableRows(lines)) == []
  {
    if lines != [] {
      var init, last := lines[..|lines| - 1], lines[|lines| - 1];
      NothingNew(init);
      assert ToTableRows(init) + [] == ToTableRows(init);
      if last.Variable? {
        assert ToTableRows(lines)[..|ToTableRows(lines)| - 1] == ToTableRows(init);
      }
    }
  }

  predicate IsNumbered(lines: seq<EnvLine>) {
    forall i :: 0 <= i < |lines| ==> lines[i].lineIndex == i
  }

  lemma {:induction false} OwnRow(lines: seq<EnvLine>, i: nat)
    requires IsNumbered(lines) && i < |lines| && lines[i].Variable?
    ensures RowFor(ToTableRows(lines), i) == Some(EnvTableRow(lines[i].key, lines[i].value, Some(i)))
  {
    var init, last := lines[..|lines| - 1], lines[|lines| - 1];
    var rows := ToTableRows(lines);
    assert ToTableRows(init) + [] == ToTableRows(init);
    if last.Variable? {
      assert rows[..|rows| - 1] == ToTableRows(init);
    }
    if i < |lines| - 1 {
      OwnRow(init, i);
    }
  }

  lemma OwnKept(lines: seq<EnvLine>, i: nat)
    requires IsNumbered(lines) && i < |lines|
    ensures Kept(lines[i], ToTableRows(lines)) == [LineText(lines[i])]
  {
    if lines[i].Variable? {
      OwnRow(lines, i);
    }
  }

  lemma {:induction false} OwnTexts(lines: seq<EnvLine>, n: nat)
    requires IsNumbered(lines) && n <= |lines|
    ensures KeptTexts(lines[..n], ToTableRows(lines)) == seq(n, i requires 0 <= i < n => LineText(lines[i]))
  {
    if n > 0 {
      OwnTexts(lines, n - 1);
      assert lines[..n][..n - 1] == lines[..n - 1];
      OwnKept(lines, n - 1);
      hide Kept, LineText, ToTableRows;
    }
  }

  lemma ParsedIsNumbered(s: string)
    ensures IsNumbered(ParseEnvFile(s))
  {
  }

  /** Opening and saving the table without an edit changes nothing. */
  lemma UneditedTableIsIdentity(s: string)
    ensures var lines := ParseEnvFile(s);
      Applied(lines, ToTableRows(lines)) == s
  {
    hide ToTableRows, KeptTexts, NewTexts, ParseLine, LineText;
    var lines := ParseEnvFile(s);
    assert IsNumbered(lines) by {
      ParsedIsNumbered(s);
    }
    hide ParseEnvFile;
    NothingNew(lines);
    OwnTexts(lines, |lines|);
    assert lines[..|lines|] == lines;
    var kept := KeptTexts(lines, ToTableRows(lines));
    assert kept + [] == kept;
    SerializeParse(s);
  }

  // ----- Reading an edited file back -----

  function PairOf(text: string): seq<(string, string)> {
    var line := ParseLine(text, 0);
    if line.Variable? then [(line.key, line.value)] else []
  }

  function OtherOf(text: string): seq<string> {
    if IsVariableLine(text) then [] else [text]
  }

  /** The `KEY=value` pairs of some lines, in order. */
  function Pairs(texts: seq<string>): seq<(string, string)> {
    if texts == [] then [] else PairOf(texts[0]) + Pairs(texts[1..])
  }

  /** The other lines, in order. */
  function Others(texts: seq<string>): seq<string> {
    if texts == [] then [] else OtherOf(texts[0]) + Others(texts[1..])
  }

  lemma ConsReads(text: string, rest: seq<string>)
    ensures Pairs([text] + rest) == PairOf(text) + Pairs(rest) && Others([text] + rest) == OtherOf(text) + Others(rest)
  {
    assert ([text] + rest)[1..] == rest;
  }

  lemma {:induction false} PairsAppend(a: seq<string>, b: seq<string>)
    ensures Pairs(a + b) == Pairs(a) + Pairs(b) && Others(a + b) == Others(a) + Others(b)
  {
    hide PairOf, OtherOf;
    if a == [] {
      NoPairs();
      assert a + b == b && [] + Pairs(b) == Pairs(b) && [] + Others(b) == Others(b);
    } else {
      hide Pairs, Others;
      assert a == [a[0]] + a[1..] && a + b == [a[0]] + (a[1..] + b);
      ConsReads(a[0], a[1..]);
      ConsReads(a[0], a[1..] + b);
      PairsAppend(a[1..], b);
    }
  }

  predicate IsValidRow(row: EnvTableRow) {
    IsName(row.key) && IsOneLine(row.value)
  }

  lemma AssignmentReadsBack(key: string, value: string)
    requires IsName(key) && IsOneLine(value)
    ensures IsVariableLine(Assignment(key, value)) && ParseLine(Assignment(key, value), 0) == Variable(key, value, 0)
    ensures Pairs([Assignment(key, value)]) == [(key, value)] && Others([Assignment(key, value)]) == []
    ensures '\n' !in Assignment(key, value)
  {
    assert '=' !in key && '\n' !in key;
    IndexOfIs(key, '=', value);
    var text := Assignment(key, value);
    assert text[..|key|] == key && text[|key| + 1..] == value;
  }

  /** What the table says a line becomes: its row's pair, or nothing. */
  function KeptPair(line: EnvLine, rows: seq<EnvTableRow>): seq<(string, string)> {
    if line.Passthrough? then []
    else
      var row := RowFor(rows, line.lineIndex);
      if row.Some? then [(row.value.key, row.value.value)] else []
  }

  function KeptPairs(lines: seq<EnvLine>, rows: seq<EnvTableRow>): seq<(string, string)> {
    if lines == [] then [] else KeptPairs(lines[..|lines| - 1], rows) + KeptPair(lines[|lines| - 1], rows)
  }

  function NewPairs(rows: seq<EnvTableRow>): seq<(string, string)> {
    if rows == [] then []
    else
      var last := rows[|rows| - 1];
      NewPairs(rows[..|rows| - 1]) + if last.lineIndex.None? then [(last.key, last.value)] else []
  }

  function PairIn(line: EnvLine): seq<(string, string)> {
    if line.Variable? then [(line.key, line.value)] else []
  }

  function RawIn(line: EnvLine): seq<string> {
    if line.Passthrough? then [line.raw] else []
  }

  function Passthroughs(lines: seq<EnvLine>): seq<string> {
    if lines == [] then []
    else
      var last := lines[|lines| - 1];
      Passthroughs(lines[..|lines| - 1]) + RawIn(last)
  }

  /** Lines as parsing produces them: no newline inside, and a passthrough line is not a variable line. */
  predicate IsParsed(lines: seq<EnvLine>) {
    forall line :: line in lines && line.Passthrough? ==> '\n' !in line.raw && !IsVariableLine(line.raw)
  }

  predicate AreValid(rows: seq<EnvTableRow>) {
    forall row :: row in rows ==> IsValidRow(row)
  }

  predicate AreLines(texts: seq<string>) {
    forall t :: t in texts ==> '\n' !in t
  }

  lemma ParsedIsParsed(s: string)
    ensures IsParsed(ParseEnvFile(s))
  {
    SplitParts(s, '\n');
  }

  lemma {:induction false} RowForIsRow(rows: seq<EnvTableRow>, i: nat)
    ensures RowFor(rows, i).Some? ==> RowFor(rows, i).value in rows
  {
    if rows != [] {
      RowForIsRow(rows[..|rows| - 1], i);
    }
  }

  lemma KeptReadsBack(line: EnvLine, rows: seq<EnvTableRow>)
    requires AreValid(rows) && IsParsed([line])
    ensures Pairs(Kept(line, rows)) == KeptPair(line, rows)
    ensures Others(Kept(line, rows)) == (if line.Passthrough? then [line.raw] else [])
    ensures AreLines(Kept(line, rows))
  {
    if line.Variable? {
      RowForIsRow(rows, line.lineIndex);
      var row := RowFor(rows, line.lineIndex);
      if row.Some? {
        AssignmentReadsBack(row.value.key, row.value.value);
      }
    } else {
      assert line in [line];
    }
  }

  lemma {:induction false} KeptTextsReadBack(lines: seq<EnvLine>, rows: seq<EnvTableRow>)
    requires AreValid(rows) && IsParsed(lines)
    ensures Pairs(KeptTexts(lines, rows)) == KeptPairs(lines, rows)
    ensures Others(KeptTexts(lines, rows)) == Passthroughs(lines)
    ensures AreLines(KeptTexts(lines, rows))
  {
    if lines != [] {
      hide Pairs, Others, Kept, KeptPair;
      var init, last := lines[..|lines| - 1], lines[|lines| - 1];
      KeptTextsReadBack(init, rows);
      KeptReadsBack(last, rows);
      PairsAppend(KeptTexts(init, rows), Kept(last, rows));
    } else {
      NoPairs();
    }
  }

  lemma {:induction false} NewTextsReadBack(rows: seq<EnvTableRow>)
    requires AreValid(rows)
    ensures Pairs(NewTexts(rows)) == NewPairs(rows) && Others(NewTexts(rows)) == [] && AreLines(NewTexts(rows))
  {
    if rows != [] {
      hide Pairs, Others, IsName, IsOneLine, Assignment;
      var init, last := rows[..|rows| - 1], rows[|rows| - 1];
      NewTextsReadBack(init);
      var text := Assignment(last.key, last.value);
      assert IsValidRow(last);
      AssignmentReadsBack(last.key, last.value);
      PairsAppend(NewTexts(init), [text]);
      assert NewTexts(init) + [] == NewTexts(init) && NewPairs(init) + [] == NewPairs(init);
    } else {
      NoPairs();
    }
  }

  lemma BlankLine()
    ensures Pairs([""]) == [] && Others([""]) == [""]
  {
    assert !IsVariableLine("");
  }

  lemma InsertedReadsBack(lines: seq<EnvLine>, rows: seq<EnvTableRow>)
    requires AreValid(rows) && IsParsed(lines)
    ensures var texts := OutputLines(lines, rows);
      && Pairs(texts) == KeptPairs(lines, rows) + NewPairs(rows)
      && Others(texts) == Passthroughs(lines)
      && AreLines(texts)
  {
    hide Pairs, Others, KeptTexts, NewTexts, KeptPairs, NewPairs, Passthroughs;
    var kept, added := KeptTexts(lines, rows), NewTexts(rows);
    KeptTextsReadBack(lines, rows);
    NewTextsReadBack(rows);
    if added != [] && EndsWithNewline(lines) && kept != [] && kept[|kept| - 1] == "" {
      var init := kept[..|kept| - 1];
      assert kept == init + [""];
      BlankLine();
      PairsAppend(init, [""]);
      PairsAppend(init, added);
      PairsAppend(init + added, [""]);
    } else {
      PairsAppend(kept, added);
    }
  }

  lemma {:induction false} PairsOfParsed(texts: seq<string>, lines: seq<EnvLine>, n: nat)
    requires |lines| == |texts| && n <= |lines|
    requires forall i :: 0 <= i < |lines| ==> lines[i] == ParseLine(texts[i], i)
    ensures Pairs(texts[..n]) == PairsIn(lines[..n]) && Others(texts[..n]) == Passthroughs(lines[..n])
  {
    hide ParseLine, PairIn, RawIn, Pairs, Others;
    if n > 0 {
      PairsOfParsed(texts, lines, n - 1);
      PairsAppend(texts[..n - 1], [texts[n - 1]]);
      assert texts[..n] == texts[..n - 1] + [texts[n - 1]];
      assert lines[..n][..n - 1] == lines[..n - 1];
      OneParsed(texts[n - 1], n - 1);
    } else {
      NoPairs();
      assert texts[..0] == [] && lines[..0] == [];
    }
  }

  lemma OneParsed(text: string, i: nat)
    ensures Pairs([text]) == PairIn(ParseLine(text, i)) && Others([text]) == RawIn(ParseLine(text, i))
  {
    ConsReads(text, []);
    NoPairs();
    assert [text] + [] == [text];
  }

  /** The pairs a parsed document shows. */
  function PairsIn(lines: seq<EnvLine>): seq<(string, string)> {
    if lines == [] then []
    else
      var last := lines[|lines| - 1];
      PairsIn(lines[..|lines| - 1]) + PairIn(last)
  }

  lemma BlankDocument()
    ensures ParseEnvFile(Join([], '\n')) == [Passthrough("", 0)]
    ensures PairsIn([Passthrough("", 0)]) == [] && Passthroughs([Passthrough("", 0)]) == [""]
  {
    var again := ParseEnvFile("");
    assert Split("", '\n') == [""];
    assert !IsVariableLine("");
    var line := Passthrough("", 0);
    assert again == [line];
    assert [line][..0] == [];
    assert PairsIn([]) == [] && Passthroughs([]) == [];
  }

  lemma NoPairs()
    ensures Pairs([]) == [] && Others([]) == []
  {
  }

  /** Reading an edited document gives exactly the kept rows in document order, then the new ones. Every other line
      is kept verbatim and in order exactly when something is left to write: an emptied document reads as one blank line. */
  lemma EditedDocumentReadsBack(s: string, rows: seq<EnvTableRow>)
    requires AreValid(rows)
    ensures var lines := ParseEnvFile(s);
      var again := ParseEnvFile(Applied(lines, rows));
      && PairsIn(again) == KeptPairs(lines, rows) + NewPairs(rows)
      && (Passthroughs(again) == Passthroughs(lines) <==> !IsEmptied(lines, rows))
  {
    hide OutputLines, KeptPairs, NewPairs, Passthroughs, PairsIn, ParseEnvFile, IsParsed, IsEmptied;
    var lines := ParseEnvFile(s);
    ParsedIsParsed(s);
    InsertedReadsBack(lines, rows);
    EmptiedIff(lines, rows);
    hide Pairs, Others, Join;
    if OutputLines(lines, rows) == [] {
      BlankDocument();
      NoPairs();
    } else {
      LinesReadBack(OutputLines(lines, rows));
    }
  }

  /** Joined lines are parsed back one by one. */
  lemma LinesReadBack(texts: seq<string>)
    requires texts != [] && AreLines(texts)
    ensures var again := ParseEnvFile(Join(texts, '\n'));
      PairsIn(again) == Pairs(texts) && Passthroughs(again) == Others(texts)
  {
    hide Pairs, Others, Passthroughs, PairsIn, ParseLine;
    SplitJoin(texts, '\n');
    var again := ParseEnvFile(Join(texts, '\n'));
    PairsOfParsed(texts, again, |texts|);
    assert again[..|again|] == again && texts[..|texts|] == texts;
  }

  /** A final newline stays at the end, behind all new lines. */
  lemma FinalNewlineStays(s: string, rows: seq<EnvTableRow>)
    requires s == "" || s[|s| - 1] == '\n'
    ensures var texts := OutputLines(ParseEnvFile(s), rows);
      texts != [] && texts[|texts| - 1] == ""
  {
    var raws, lines := Split(s, '\n'), ParseEnvFile(s);
    LastPartIsEmpty(s);
    var init, last := lines[..|lines| - 1], lines[|lines| - 1];
    assert !IsVariableLine("");
    assert last == Passthrough("", |raws| - 1);
    hide ParseEnvFile, NewTexts;
    assert KeptTexts(lines, rows) == KeptTexts(init, rows) + [""];
  }

  lemma {:induction false} LastPartIsEmpty(s: string)
    requires s == "" || s[|s| - 1] == '\n'
    ensures Split(s, '\n')[|Split(s, '\n')| - 1] == ""
  {
    if s != "" {
      var init := s[..|s| - 1];
      assert s == init + ['\n'] + "";
      SplitAppend(init, '\n', "");
    }
  }

  /** Every line was a variable, each of them was removed and nothing was added. */
  predicate IsEmptied(lines: seq<EnvLine>, rows: seq<EnvTableRow>) {
    (forall line :: line in lines ==> line.Variable? && RowFor(rows, line.lineIndex).None?) &&
    forall row :: row in rows ==> row.lineIndex.Some?
  }

  lemma {:induction false} NoKept(lines: seq<EnvLine>, rows: seq<EnvTableRow>)
    ensures KeptTexts(lines, rows) == [] <==>
      forall line :: line in lines ==> line.Variable? && RowFor(rows, line.lineIndex).None?
  {
    if lines != [] {
      var init, last := lines[..|lines| - 1], lines[|lines| - 1];
      NoKept(init, rows);
      assert last in lines && forall line :: line in lines ==> line in init || line == last;
      assert forall line :: line in init ==> line in lines;
      assert Kept(last, rows) == [] <==> last.Variable? && RowFor(rows, last.lineIndex).None?;
    }
  }

  lemma {:induction false} NoneNew(rows: seq<EnvTableRow>)
    ensures NewTexts(rows) == [] <==> forall row :: row in rows ==> row.lineIndex.Some?
  {
    if rows != [] {
      var init, last := rows[..|rows| - 1], rows[|rows| - 1];
      NoneNew(init);
      assert last in rows && forall row :: row in rows ==> row in init || row == last;
      assert forall row :: row in init ==> row in rows;
    }
  }

  lemma EmptiedIff(lines: seq<EnvLine>, rows: seq<EnvTableRow>)
    ensures OutputLines(lines, rows) == [] <==> IsEmptied(lines, rows)
  {
    NoKept(lines, rows);
    NoneNew(rows);
    hide KeptTexts, NewTexts, RowFor;
  }

  /** Removing the only variable of a one-line file leaves a file with one blank line that was not there before. */
  lemma EmptiedFileGainsALine()
    ensures var lines := ParseEnvFile("A=1");
      && lines == [Variable("A", "1", 0)]
      && ParseEnvFile(Applied(lines, [])) == [Passthrough("", 0)]
  {
    SplitWithout("A=1", '\n');
    assert "A=1" == Assignment("A", "1");
    AssignmentReadsBack("A", "1");
    var lines := ParseEnvFile("A=1");
    assert lines[..0] == [];
    assert OutputLines(lines, []) == [];
    assert !IsVariableLine("");
  }
}
