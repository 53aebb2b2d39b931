/** Migration files: transaction mode, and the statements of a file that runs without a transaction. */
module MigrationFile {
  import opened MigrationText
  import opened WhiteSpace

  const NO_TRANSACTION: string := "-- pufu-lens: no-transaction"
  const STATEMENT_BREAK: string := "-- pufu-lens: statement-break"

  datatype ParseError = EmptyChunk | NoStatements

  datatype Result<+T> = Ok(value: T) | Err(error: ParseError)

  datatype Mode = Transactional | NonTransactional

  datatype ParsedFile = ParsedFile(mode: Mode, sql: string, statements: seq<string>)

  predicate IsBreak(line: string) {
    Trim(line) == STATEMENT_BREAK
  }

  // ----- What a body means -----

  /** The lines between break lines; one group more than there are breaks. */
  ghost function Groups(lines: seq<string>): (r: seq<seq<string>>)
    ensures r != []
  {
    if lines == [] then [[]]
    else
      AddLine(Groups(lines[..|lines| - 1]), lines[|lines| - 1])
  }

  ghost function AddLine(groups: seq<seq<string>>, line: string): (r: seq<seq<string>>)
    requires groups != []
    ensures r != []
  {
    if IsBreak(line) then groups + [[]] else groups[..|groups| - 1] + [groups[|groups| - 1] + [line]]
  }

  ghost function Breaks(lines: seq<string>): seq<string> {
    if lines == [] then []
    else
      Breaks(lines[..|lines| - 1]) + if IsBreak(lines[|lines| - 1]) then [lines[|lines| - 1]] else []
  }

  ghost function Chunks(groups: seq<seq<string>>): seq<string> {
    seq(|groups|, i requires 0 <= i < |groups| => Trim(Join(groups[i])))
  }

  /** Every group before a break must hold a statement; the last one may be blank. */
  ghost function Statements(body: string): Result<seq<string>> {
    var chunks := Chunks(Groups(Lines(body)));
    var n := |chunks| - 1;
    if [] in chunks[..n] then Err(EmptyChunk)
    else if chunks[n] != [] then Ok(chunks)
    else if n == 0 then Err(NoStatements)
    else Ok(chunks[..n])
  }

  // ----- The splitting loop -----

  lemma LinesPrefix(lines: seq<string>, i: nat)
    requires i < |lines|
    ensures lines[..i + 1][..i] == lines[..i] && lines[..i + 1][i] == lines[i]
  {
  }

  lemma ChunksOfMore(groups: seq<seq<string>>, g: seq<string>)
    ensures Chunks(groups + [g]) == Chunks(groups) + [Trim(Join(g))]
  {
  }

  lemma FlushedBreak(done: seq<seq<string>>, current: seq<string>, lines: seq<string>, i: nat)
    requires i < |lines| && Groups(lines[..i]) == done + [current] && IsBreak(lines[i])
    ensures Groups(lines[..i + 1]) == (done + [current]) + [[]]
  {
    LinesPrefix(lines, i);
  }

  lemma PushedLine(done: seq<seq<string>>, current: seq<string>, lines: seq<string>, i: nat)
    requires i < |lines| && Groups(lines[..i]) == done + [current] && !IsBreak(lines[i])
    ensures Groups(lines[..i + 1]) == done + [current + [lines[i]]]
  {
    LinesPrefix(lines, i);
    assert (done + [current])[..|done|] == done;
  }

  lemma AddLineKeeps(groups: seq<seq<string>>, line: string, n: nat)
    requires n < |groups|
    ensures |AddLine(groups, line)| >= |groups| && AddLine(groups, line)[..n] == groups[..n]
  {
  }

  lemma {:induction false} GroupsExtend(lines: seq<string>, i: nat)
    requires i <= |lines|
    ensures |Groups(lines[..i])| <= |Groups(lines)|
    ensures var n := |Groups(lines[..i])| - 1; Groups(lines)[..n] == Groups(lines[..i])[..n]
  {
    if i < |lines| {
      var front := lines[..|lines| - 1];
      assert front[..i] == lines[..i];
      GroupsExtend(front, i);
      AddLineKeeps(Groups(front), lines[|lines| - 1], |Groups(lines[..i])| - 1);
    } else {
      assert lines[..i] == lines;
    }
  }

  /** A blank group before a break is fatal whatever follows. */
  lemma {:induction false} EmptyChunkFails(done: seq<seq<string>>, current: seq<string>, body: string, i: nat)
    requires i < |Lines(body)| && Groups(Lines(body)[..i]) == done + [current] && IsBreak(Lines(body)[i])
    requires Trim(Join(current)) == []
    ensures Statements(body) == Err(EmptyChunk)
  {
    var lines := Lines(body);
    FlushedBreak(done, current, lines, i);
    GroupsExtend(lines, i + 1);
    var k := |done|;
    assert Groups(lines)[..k + 1][k] == current;
    assert Chunks(Groups(lines))[..|Groups(lines)| - 1][k] == [];
  }

  lemma {:induction false} Finished(done: seq<seq<string>>, current: seq<string>, statements: seq<string>, body: string)
    requires Groups(Lines(body)) == done + [current] && statements == Chunks(done) && [] !in statements
    ensures Statements(body)
         == if !Blank(Join(current)) then Ok(statements + [Trim(Join(current))])
            else if statements == [] then Err(NoStatements) else Ok(statements)
  {
    ChunksOfMore(done, current);
    assert Chunks(done + [current])[..|done|] == statements;
  }

  method ParseStatements(body: string) returns (result: Result<seq<string>>)
    ensures result == Statements(body)
    ensures Decides(Groups(Lines(body)), result)
  {
    GroupsDecide(body);
    var lines := Lines(body);
    var statements: seq<string>, currentLines: seq<string> := [], [];
    ghost var done: seq<seq<string>> := [];
    for i := 0 to |lines|
      invariant Groups(lines[..i]) == done + [currentLines]
      invariant statements == Chunks(done) && [] !in statements
    {
      if IsBreak(lines[i]) {
        var statement := Trim(Join(currentLines));
        if |statement| == 0 {
          EmptyChunkFails(done, currentLines, body, i);
          return Err(EmptyChunk);
        }
        FlushedBreak(done, currentLines, lines, i);
        ChunksOfMore(done, currentLines);
        done := done + [currentLines];
        statements := statements + [statement];
        currentLines := [];
        continue;
      }
      PushedLine(done, currentLines, lines, i);
      currentLines := currentLines + [lines[i]];
    }
    assert lines[..|lines|] == lines;
    Finished(done, currentLines, statements, body);
    if |Trim(Join(currentLines))| > 0 {
      statements := statements + [Trim(Join(currentLines))];
    }
    if |statements| == 0 {
      return Err(NoStatements);
    }
    return Ok(statements);
  }

  // ----- What comes out -----

  /** A statement as the parser returns it. */
  ghost predicate Clean(s: string) {
    s != [] && Trimmed(s) && forall i :: 0 <= i < |Lines(s)| ==> !IsBreak(Lines(s)[i])
  }

  ghost predicate AllLines(groups: seq<seq<string>>, keep: string -> bool) {
    forall g, i :: 0 <= g < |groups| && 0 <= i < |groups[g]| ==> keep(groups[g][i])
  }

  lemma {:induction false} GroupsKeep(lines: seq<string>, keep: string -> bool)
    requires forall i :: 0 <= i < |lines| ==> IsBreak(lines[i]) || keep(lines[i])
    ensures AllLines(Groups(lines), keep)
  {
    if lines != [] {
      var n := |lines| - 1;
      GroupsKeep(lines[..n], keep);
    }
  }

  lemma {:induction false} LinesAreSingle(s: string)
    ensures forall i :: 0 <= i < |Lines(s)| ==> NEWLINE !in Lines(s)[i]
  {
    if s != [] {
      LinesAreSingle(s[1..]);
    }
  }

  lemma {:induction false} LinesOfJoin(lines: seq<string>)
    requires lines != [] && forall i :: 0 <= i < |lines| ==> NEWLINE !in lines[i]
    ensures Lines(Join(lines)) == lines
  {
    SingleLine(lines[0]);
    if |lines| > 1 {
      LinesOfJoin(lines[1..]);
      LinesOfJoined(lines[0], Join(lines[1..]));
    }
  }

  lemma {:induction false} ChunkIsClean(group: seq<string>)
    requires Trim(Join(group)) != []
    requires forall i :: 0 <= i < |group| ==> !IsBreak(group[i]) && NEWLINE !in group[i]
    ensures Clean(Trim(Join(group)))
  {
    var text := Join(group);
    TrimTrims(text);
    TrimKeepsLines(text);
    if group != [] {
      LinesOfJoin(group);
      assert STATEMENT_BREAK !in TrimmedLines(text);
      var lines := Lines(Trim(text));
      forall i | 0 <= i < |lines| ensures !IsBreak(lines[i]) {
        assert Trim(lines[i]) in TrimmedLines(Trim(text));
      }
    }
  }

  /** An accepted body yields at least one statement, and only non-empty, trimmed statements without a break line. */
  lemma AcceptedStatementsAreClean(body: string)
    requires Statements(body).Ok?
    ensures Statements(body).value != []
    ensures forall i :: 0 <= i < |Statements(body).value| ==> Clean(Statements(body).value[i])
  {
    var lines := Lines(body);
    var groups := Groups(lines);
    GroupsKeep(lines, line => !IsBreak(line));
    LinesAreSingle(body);
    GroupsKeep(lines, line => NEWLINE !in line);
    var chunks := Chunks(groups);
    var statements := Statements(body).value;
    forall i | 0 <= i < |statements| ensures Clean(statements[i]) {
      assert statements[i] == chunks[i];
      if i < |chunks| - 1 {
        assert chunks[i] == chunks[..|chunks| - 1][i];
      }
      ChunkIsClean(groups[i]);
    }
  }

  ghost function Interleave(groups: seq<seq<string>>, breaks: seq<string>): seq<string>
    requires |groups| == |breaks| + 1
  {
    if breaks == [] then groups[0]
    else Interleave(groups[..|groups| - 1], breaks[..|breaks| - 1]) + [breaks[|breaks| - 1]] + groups[|groups| - 1]
  }

  lemma InterleaveBreak(groups: seq<seq<string>>, breaks: seq<string>, line: string)
    requires |groups| == |breaks| + 1
    ensures Interleave(groups + [[]], breaks + [line]) == Interleave(groups, breaks) + [line]
  {
    assert (groups + [[]])[..|groups|] == groups && (breaks + [line])[..|breaks|] == breaks;
  }

  lemma InterleaveLonger(groups: seq<seq<string>>, breaks: seq<string>, line: string)
    requires |groups| == |breaks| + 1
    ensures var n := |groups| - 1;
            Interleave(groups[..n] + [groups[n] + [line]], breaks) == Interleave(groups, breaks) + [line]
  {
    var n := |groups| - 1;
    var longer := groups[..n] + [groups[n] + [line]];
    if breaks != [] {
      assert longer[..n] == groups[..n];
    }
  }

  /** The groups and the break lines between them are all lines of the body, in order: splitting loses nothing else. */
  lemma {:induction false} GroupsAreTheBody(lines: seq<string>)
    ensures |Groups(lines)| == |Breaks(lines)| + 1
    ensures Interleave(Groups(lines), Breaks(lines)) == lines
    ensures forall i :: 0 <= i < |Breaks(lines)| ==> IsBreak(Breaks(lines)[i])
  {
    if lines != [] {
      var front, last := lines[..|lines| - 1], lines[|lines| - 1];
      GroupsAreTheBody(front);
      assert lines == front + [last];
      if IsBreak(last) {
        InterleaveBreak(Groups(front), Breaks(front), last);
      } else {
        InterleaveLonger(Groups(front), Breaks(front), last);
        assert Breaks(lines) == Breaks(front);
      }
    }
  }

  /** The groups, with the break lines between them, are the lines; no group holds a break line. */
  ghost predicate Splits(lines: seq<string>, groups: seq<seq<string>>, breaks: seq<string>) {
    && |groups| == |breaks| + 1 && Interleave(groups, breaks) == lines
    && (forall i :: 0 <= i < |breaks| ==> Trim(breaks[i]) == STATEMENT_BREAK)
    && (forall g, i :: 0 <= g < |groups| && 0 <= i < |groups[g]| ==> Trim(groups[g][i]) != STATEMENT_BREAK)
  }

  /**
    What a body in these groups parses to: a blank group before a break line is an error, a blank last one is
    dropped.
   */
  ghost predicate Decides(groups: seq<seq<string>>, result: Result<seq<string>>)
    requires groups != []
  {
    var n := |groups| - 1;
    var count := if Trim(Join(groups[n])) == [] then n else n + 1;
    if exists g :: 0 <= g < n && Trim(Join(groups[g])) == [] then result == Err(EmptyChunk)
    else if count == 0 then result == Err(NoStatements)
    else
      && result.Ok? && |result.value| == count
      && forall i :: 0 <= i < count ==> result.value[i] == Trim(Join(groups[i]))
  }

  lemma SplitExists(lines: seq<string>)
    ensures Splits(lines, Groups(lines), Breaks(lines))
  {
    GroupsAreTheBody(lines);
    GroupsKeep(lines, line => !IsBreak(line));
  }

  /** A body splits in one way only. */
  lemma {:induction false} SplitIsUnique(lines: seq<string>, groups: seq<seq<string>>, breaks: seq<string>)
    requires Splits(lines, groups, breaks)
    ensures groups == Groups(lines)
    decreases |breaks|
  {
    var n := |groups| - 1;
    LastGroupIsPlain(lines, groups, breaks);
    if breaks == [] {
      assert groups == [groups[n]];
    } else {
      var front := ShorterSplit(lines, groups, breaks);
      SplitIsUnique(front, groups[..n], breaks[..n - 1]);
      GluedGroups(front, breaks[n - 1], groups[n]);
      assert groups == groups[..n] + [groups[n]];
    }
  }

  lemma LastGroupIsPlain(lines: seq<string>, groups: seq<seq<string>>, breaks: seq<string>)
    requires Splits(lines, groups, breaks)
    ensures Groups(groups[|groups| - 1]) == [groups[|groups| - 1]]
    ensures breaks != [] ==> IsBreak(breaks[|breaks| - 1])
  {
    GroupsOfPlain(groups[|groups| - 1]);
  }

  lemma GluedGroups(front: seq<string>, line: string, last: seq<string>)
    requires IsBreak(line) && Groups(last) == [last]
    ensures Groups(front + [line] + last) == Groups(front) + [last]
  {
    GroupsBeforeBreak(front, line);
    GroupsAfterBreak(front + [line], Groups(front), last);
  }

  lemma ShorterSplit(lines: seq<string>, groups: seq<seq<string>>, breaks: seq<string>) returns (front: seq<string>)
    requires Splits(lines, groups, breaks) && breaks != []
    ensures var n := |breaks|;
            Splits(front, groups[..n], breaks[..n - 1]) && lines == front + [breaks[n - 1]] + groups[n]
  {
    var n := |breaks|;
    front := Interleave(groups[..n], breaks[..n - 1]);
    assert forall g :: 0 <= g < n ==> groups[..n][g] == groups[g];
  }

  lemma GroupsBeforeBreak(front: seq<string>, line: string)
    requires IsBreak(line)
    ensures Groups(front + [line]) == Groups(front) + [[]]
  {
    assert (front + [line])[..|front|] == front;
  }

  lemma GroupsDecide(body: string)
    ensures Decides(Groups(Lines(body)), Statements(body))
  {
    var groups := Groups(Lines(body));
    var chunks := Chunks(groups);
    var n := |groups| - 1;
    if [] in chunks[..n] {
      var g :| 0 <= g < n && chunks[..n][g] == [];
      assert Trim(Join(groups[g])) == [];
    } else {
      forall g | 0 <= g < n ensures Trim(Join(groups[g])) != [] {
        assert chunks[..n][g] == Trim(Join(groups[g]));
      }
    }
  }

  /** The parser's answer, read off the lines: whatever groups the body splits into decide it. */
  lemma StatementsMeaning(body: string, groups: seq<seq<string>>, breaks: seq<string>)
    requires Splits(Lines(body), groups, breaks)
    ensures Decides(groups, Statements(body))
  {
    SplitIsUnique(Lines(body), groups, breaks);
    GroupsDecide(body);
  }

  // ----- Printing and parsing back -----

  /** The statements with a break line between neighbours. */
  function Print(statements: seq<string>): string {
    if statements == [] then []
    else if |statements| == 1 then statements[0]
    else
      Print(statements[..|statements| - 1]) + [NEWLINE]
      + (STATEMENT_BREAK + [NEWLINE] + statements[|statements| - 1])
  }

  lemma BreakIsBreak()
    ensures IsBreak(STATEMENT_BREAK) && NEWLINE !in STATEMENT_BREAK && Lines(STATEMENT_BREAK) == [STATEMENT_BREAK]
  {
    PlainLine(STATEMENT_BREAK);
  }

  lemma {:induction false} GroupsOfPlain(lines: seq<string>)
    requires forall i :: 0 <= i < |lines| ==> !IsBreak(lines[i])
    ensures Groups(lines) == [lines]
  {
    if lines != [] {
      var front := lines[..|lines| - 1];
      GroupsOfPlain(front);
      assert lines == front + [lines[|lines| - 1]];
      assert [front][..0] == [];
    }
  }

  lemma AddLineToLast(before: seq<seq<string>>, after: seq<seq<string>>, line: string)
    requires after != []
    ensures AddLine(before + after, line) == before + AddLine(after, line)
  {
    var all := before + after;
    assert all[..|all| - 1] == before + after[..|after| - 1];
  }

  lemma OneMoreAfterBreak(whole: seq<string>, groups: seq<seq<string>>, front: seq<string>, last: string)
    requires Groups(whole) == groups + Groups(front)
    ensures Groups(whole + [last]) == groups + Groups(front + [last])
  {
    AddLineToLast(groups, Groups(front), last);
  }

  lemma SplitLast<T>(head: seq<T>, tail: seq<T>) returns (front: seq<T>, last: T)
    requires tail != []
    ensures tail == front + [last] && head + tail == head + front + [last] && |front| < |tail|
  {
    front, last := tail[..|tail| - 1], tail[|tail| - 1];
  }

  lemma {:induction false} GroupsAfterBreak(head: seq<string>, groups: seq<seq<string>>, tail: seq<string>)
    requires Groups(head) == groups + [[]]
    ensures Groups(head + tail) == groups + Groups(tail)
    decreases |tail|
  {
    if tail == [] {
      assert head + tail == head;
    } else {
      var front, last := SplitLast(head, tail);
      GroupsAfterBreak(head, groups, front);
      OneMoreAfterBreak(head + front, groups, front, last);
    }
  }

  ghost function LineLists(statements: seq<string>): seq<seq<string>> {
    seq(|statements|, i requires 0 <= i < |statements| => Lines(statements[i]))
  }

  lemma {:induction false} PrintedLines(front: seq<string>, last: string)
    requires front != []
    ensures Lines(Print(front + [last])) == Lines(Print(front)) + [STATEMENT_BREAK] + Lines(last)
  {
    assert (front + [last])[..|front|] == front;
    BreakIsBreak();
    LinesOfJoined(Print(front), STATEMENT_BREAK + [NEWLINE] + last);
    LinesOfJoined(STATEMENT_BREAK, last);
  }

  lemma OneMorePrinted(front: seq<string>, last: string)
    requires front != [] && Clean(last) && Groups(Lines(Print(front))) == LineLists(front)
    ensures Groups(Lines(Print(front + [last]))) == LineLists(front) + [Lines(last)]
  {
    GroupsOfPlain(Lines(last));
    PrintedLines(front, last);
    BreakIsBreak();
    GroupsAfterBreak(Lines(Print(front)) + [STATEMENT_BREAK], LineLists(front), Lines(last));
  }

  lemma {:induction false} GroupsOfPrinted(statements: seq<string>)
    requires statements != [] && forall i :: 0 <= i < |statements| ==> Clean(statements[i])
    ensures Groups(Lines(Print(statements))) == LineLists(statements)
  {
    var front, last := statements[..|statements| - 1], statements[|statements| - 1];
    assert statements == front + [last];
    if front == [] {
      GroupsOfPlain(Lines(last));
    } else {
      GroupsOfPrinted(front);
      OneMorePrinted(front, last);
    }
    assert LineLists(statements) == LineLists(front) + [Lines(last)];
  }

  lemma ChunksOfLineLists(statements: seq<string>)
    requires forall i :: 0 <= i < |statements| ==> Trimmed(statements[i])
    ensures Chunks(LineLists(statements)) == statements
  {
    forall i | 0 <= i < |statements| ensures Trim(Join(Lines(statements[i]))) == statements[i] {
      JoinOfLines(statements[i]);
    }
  }

  lemma FullChunksAccepted(body: string, chunks: seq<string>)
    requires chunks == Chunks(Groups(Lines(body))) && [] !in chunks && chunks != []
    ensures Statements(body) == Ok(chunks)
  {
  }

  /** Printing clean statements and parsing the text gives the statements back. */
  lemma {:induction false} PrintedStatementsParseBack(statements: seq<string>)
    requires statements != [] && forall i :: 0 <= i < |statements| ==> Clean(statements[i])
    ensures Statements(Print(statements)) == Ok(statements)
  {
    GroupsOfPrinted(statements);
    ChunksOfLineLists(statements);
    FullChunksAccepted(Print(statements), statements);
  }

  // ----- Whole files -----

  /** The position of the first line that is not blank, or the number of lines. */
  function FirstNonBlank(lines: seq<string>): (r: nat)
    ensures r <= |lines|
    ensures forall i :: 0 <= i < r ==> Blank(lines[i])
    ensures r < |lines| ==> !Blank(lines[r])
  {
    if lines == [] then 0
    else if !Blank(lines[0]) then 0
    else 1 + FirstNonBlank(lines[1..])
  }

  /** The directive on the first line that is not blank selects statements; any other file runs as one transaction. */
  ghost function FileOf(content: string): Result<ParsedFile> {
    var lines := Lines(content);
    var i := FirstNonBlank(lines);
    if i == |lines| || Trim(lines[i]) != NO_TRANSACTION then Ok(ParsedFile(Transactional, content, []))
    else match Statements(Join(lines[i + 1..]))
      case Ok(statements) => Ok(ParsedFile(NonTransactional, Join(statements), statements))
      case Err(error) => Err(error)
  }

  /** The text is these lines: blank ones, one that trims to the directive, and the rest. */
  ghost predicate HasHeader(content: string, blanks: seq<string>, line: string, rest: seq<string>) {
    && content == Join(blanks + [line] + rest) && Trim(line) == NO_TRANSACTION
    && (forall i :: 0 <= i < |blanks| ==> Trim(blanks[i]) == [])
    && (forall i :: 0 <= i < |blanks + [line] + rest| ==> NEWLINE !in (blanks + [line] + rest)[i])
  }

  lemma HeaderIsFound(content: string, blanks: seq<string>, line: string, rest: seq<string>)
    requires HasHeader(content, blanks, line, rest)
    ensures var lines, i := Lines(content), FirstNonBlank(Lines(content));
            i == |blanks| < |lines| && Trim(lines[i]) == NO_TRANSACTION && lines[i + 1..] == rest
  {
    LinesOfJoin(blanks + [line] + rest);
    BlankLinesSkipped(blanks, [line] + rest);
    assert blanks + [line] + rest == blanks + ([line] + rest);
  }

  lemma FoundIsHeader(content: string, i: nat)
    requires i == FirstNonBlank(Lines(content)) < |Lines(content)| && Trim(Lines(content)[i]) == NO_TRANSACTION
    ensures HasHeader(content, Lines(content)[..i], Lines(content)[i], Lines(content)[i + 1..])
  {
    JoinOfLines(content);
    LinesAreSingle(content);
    AllThree(Lines(content), i);
  }

  lemma AllThree<T>(s: seq<T>, i: nat)
    requires i < |s|
    ensures s[..i] + [s[i]] + s[i + 1..] == s
  {
  }

  /** A file without the directive runs as it is, in one transaction. */
  lemma OtherFilesRunAsTheyAre(content: string)
    ensures (exists blanks, line, rest :: HasHeader(content, blanks, line, rest))
            || FileOf(content) == Ok(ParsedFile(Transactional, content, []))
  {
    var lines := Lines(content);
    var i := FirstNonBlank(lines);
    if i < |lines| && Trim(lines[i]) == NO_TRANSACTION {
      FoundIsHeader(content, i);
    }
  }

  /** The answer for a file with the directive, given what the text behind it parses to. */
  function Directed(parsed: Result<seq<string>>): Result<ParsedFile> {
    match parsed
    case Ok(statements) => Ok(ParsedFile(NonTransactional, Join(statements), statements))
    case Err(error) => Err(error)
  }

  /** Under the directive the statements are those of the text behind it, and its errors are the file's. */
  lemma DirectedFilesRunTheirStatements(content: string, blanks: seq<string>, line: string, rest: seq<string>)
    requires HasHeader(content, blanks, line, rest)
    ensures FileOf(content) == Directed(Statements(Join(rest)))
  {
    HeaderIsFound(content, blanks, line, rest);
  }

  /** Anything but a transaction is answered exactly if the first line that is not blank is the directive. */
  lemma FileMeaning(content: string)
    ensures var result := FileOf(content);
            && (result.Ok? && result.value.mode == Transactional
                <==> !exists blanks, line, rest :: HasHeader(content, blanks, line, rest))
            && (result.Ok? && result.value.mode == Transactional ==>
                  result.value.sql == content && result.value.statements == [])
            && forall blanks, line, rest :: HasHeader(content, blanks, line, rest) ==>
                 result == Directed(Statements(Join(rest)))
  {
    OtherFilesRunAsTheyAre(content);
    forall blanks, line, rest | HasHeader(content, blanks, line, rest)
      ensures FileOf(content) == Directed(Statements(Join(rest)))
    {
      DirectedFilesRunTheirStatements(content, blanks, line, rest);
    }
  }

  /** A transaction is the whole text; under the directive the statements are those of the text behind it. */
  method ParseFile(content: string) returns (result: Result<ParsedFile>)
    ensures result == FileOf(content)
    ensures result.Ok? && result.value.mode == Transactional
            <==> !exists blanks, line, rest :: HasHeader(content, blanks, line, rest)
    ensures result.Ok? && result.value.mode == Transactional ==>
              result.value.sql == content && result.value.statements == []
    ensures forall blanks, line, rest :: HasHeader(content, blanks, line, rest) ==>
              result == Directed(Statements(Join(rest)))
  {
    var lines := Lines(content);
    var i := FirstNonBlank(lines);
    if i == |lines| {
      result := Ok(ParsedFile(Transactional, content, []));
    } else if Trim(lines[i]) == NO_TRANSACTION {
      var parsed := ParseStatements(Join(lines[i + 1..]));
      match parsed {
        case Ok(statements) => result := Ok(ParsedFile(NonTransactional, Join(statements), statements));
        case Err(error) => result := Err(error);
      }
    } else {
      result := Ok(ParsedFile(Transactional, content, []));
    }
    FileMeaning(content);
  }

  lemma {:induction false} BlankLinesSkipped(blanks: seq<string>, rest: seq<string>)
    requires forall i :: 0 <= i < |blanks| ==> Blank(blanks[i])
    requires rest != [] && !Blank(rest[0])
    ensures FirstNonBlank(blanks + rest) == |blanks|
  {
    if blanks == [] {
      assert blanks + rest == rest;
    } else {
      BlankLinesSkipped(blanks[1..], rest);
      assert (blanks + rest)[1..] == blanks[1..] + rest;
    }
  }

  lemma DirectiveIsALine()
    ensures Lines(NO_TRANSACTION) == [NO_TRANSACTION] && Trim(NO_TRANSACTION) == NO_TRANSACTION
  {
    PlainLine(NO_TRANSACTION);
  }

  lemma LineFirst(first: string, rest: seq<string>)
    requires NEWLINE !in first && rest != []
    ensures Lines(Join([first] + rest)) == [first] + Lines(Join(rest))
  {
    SingleLine(first);
    LinesOfJoined(first, Join(rest));
    assert ([first] + rest)[1..] == rest;
  }

  lemma SplitFirst<T>(s: seq<T>, tail: seq<T>)
    requires s != []
    ensures s + tail == [s[0]] + (s[1..] + tail)
  {
  }

  lemma {:induction false} LinesAfterBlanks(blanks: seq<string>, text: string)
    requires forall i :: 0 <= i < |blanks| ==> NEWLINE !in blanks[i]
    ensures Lines(Join(blanks + [text])) == blanks + Lines(text)
  {
    if blanks == [] {
      assert blanks + [text] == [text];
    } else {
      LinesAfterBlanks(blanks[1..], text);
      LineFirst(blanks[0], blanks[1..] + [text]);
      SplitFirst(blanks, [text]);
      SplitFirst(blanks, Lines(text));
    }
  }

  /** A file in the source's form: blank lines, the directive, the printed statements. */
  function PrintFile(blanks: seq<string>, statements: seq<string>): string {
    Join(blanks + [NO_TRANSACTION + [NEWLINE] + Print(statements)])
  }

  lemma {:induction false} HeaderLines(blanks: seq<string>, header: string, body: string)
    requires forall i :: 0 <= i < |blanks| ==> NEWLINE !in blanks[i]
    requires Lines(header) == [header]
    ensures Lines(Join(blanks + [header + [NEWLINE] + body])) == blanks + [header] + Lines(body)
  {
    LinesAfterBlanks(blanks, header + [NEWLINE] + body);
    LinesOfJoined(header, body);
  }

  lemma FileLines(blanks: seq<string>, statements: seq<string>)
    requires forall i :: 0 <= i < |blanks| ==> NEWLINE !in blanks[i]
    ensures Lines(PrintFile(blanks, statements)) == blanks + [NO_TRANSACTION] + Lines(Print(statements))
  {
    DirectiveIsALine();
    HeaderLines(blanks, NO_TRANSACTION, Print(statements));
  }

  lemma DirectiveFound(blanks: seq<string>, rest: seq<string>)
    requires forall i :: 0 <= i < |blanks| ==> Blank(blanks[i])
    ensures FirstNonBlank(blanks + [NO_TRANSACTION] + rest) == |blanks|
  {
    DirectiveIsALine();
    BlankLinesSkipped(blanks, [NO_TRANSACTION] + rest);
    assert blanks + [NO_TRANSACTION] + rest == blanks + ([NO_TRANSACTION] + rest);
  }

  lemma DirectiveFile(content: string, blanks: seq<string>, body: string)
    requires Lines(content) == blanks + [NO_TRANSACTION] + Lines(body)
    requires FirstNonBlank(Lines(content)) == |blanks| && Trim(NO_TRANSACTION) == NO_TRANSACTION
    requires Statements(body).Ok?
    ensures FileOf(content)
         == Ok(ParsedFile(NonTransactional, Join(Statements(body).value), Statements(body).value))
  {
    JoinOfLines(body);
    assert (blanks + [NO_TRANSACTION] + Lines(body))[|blanks| + 1..] == Lines(body);
  }

  /** A file printed under the directive, after any blank lines, parses back to exactly those statements. */
  lemma PrintedFilesParseBack(blanks: seq<string>, statements: seq<string>)
    requires forall i :: 0 <= i < |blanks| ==> Blank(blanks[i]) && NEWLINE !in blanks[i]
    requires statements != [] && forall i :: 0 <= i < |statements| ==> Clean(statements[i])
    ensures FileOf(PrintFile(blanks, statements)) == Ok(ParsedFile(NonTransactional, Join(statements), statements))
  {
    FileLines(blanks, statements);
    DirectiveFound(blanks, Lines(Print(statements)));
    DirectiveIsALine();
    PrintedStatementsParseBack(statements);
    DirectiveFile(PrintFile(blanks, statements), blanks, Print(statements));
  }
}
