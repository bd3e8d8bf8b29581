/**
 * Loading the schema file: backend/setup-db.js drops the comment lines,
 * splits the rest into statements at ';' and runs them in order, tolerating
 * only "undefined table" errors; the /api/setupdb route of backend/server.js
 * splits the same way and attempts every statement whatever happens.
 */
module SchemaSetup {
  import opened Wrappers
  import opened JsStrings
  import opened Http

  // ---------------------------------------------------------------------------
  // Splitting the schema into statements
  // ---------------------------------------------------------------------------

  /** A line whose trimmed form starts with "--". A line with a comment after
      code is not one. */
  predicate IsCommentLine(line: string) {
    StartsWith(Trim(line), "--")
  }

  /** The lines that survive the comment filter, in their order: a line
      goes when, trimmed, it starts with two dashes. */
  function KeepCodeLines(lines: seq<string>): (kept: seq<string>)
    ensures |kept| <= |lines|
  {
    if lines == [] then []
    else (if IsCommentLine(lines[0]) then [] else [lines[0]]) + KeepCodeLines(lines[1..])
  }

  /** The filter works line by line, keeping the order. */
  lemma {:induction false} KeepCodeLinesAppend(a: seq<string>, b: seq<string>)
    ensures KeepCodeLines(a + b) == KeepCodeLines(a) + KeepCodeLines(b)
  {
    if a == [] {
      assert a + b == b;
    } else {
      var head := if IsCommentLine(a[0]) then [] else [a[0]];
      assert KeepCodeLines(a + b) == head + KeepCodeLines(a[1..] + b) by {
        assert (a + b)[0] == a[0];
        assert (a + b)[1..] == a[1..] + b;
      }
      KeepCodeLinesAppend(a[1..], b);
      ConcatAssociates(head, KeepCodeLines(a[1..]), KeepCodeLines(b));
    }
  }

  /** A line survives iff it is there and is not a comment line. */
  lemma {:induction false} KeepCodeLinesMembership(lines: seq<string>, line: string)
    ensures line in KeepCodeLines(lines) <==> line in lines && !IsCommentLine(line)
  {
    if lines != [] {
      KeepCodeLinesMembership(lines[1..], line);
      assert lines == [lines[0]] + lines[1..];
    }
  }

  /** The schema without its comment lines. */
  function StripComments(schema: string): string {
    Join(KeepCodeLines(Split(schema, '\n')), '\n')
  }

  /** Non-empty, with no whitespace at either end. */
  predicate Trimmed(s: string) {
    s != [] && !IsJsWhitespace(s[0]) && !IsJsWhitespace(s[|s| - 1])
  }

  /** Every piece trimmed, and the pieces left empty dropped. */
  function TrimmedStatements(pieces: seq<string>): (stmts: seq<string>)
    ensures |stmts| <= |pieces|
  {
    if pieces == [] then []
    else
      var t := Trim(pieces[0]);
      (if t == [] then [] else [t]) + TrimmedStatements(pieces[1..])
  }

  /** Every statement is non-empty and trimmed. */
  lemma {:induction false} TrimmedStatementsTrimmed(pieces: seq<string>)
    ensures forall i | 0 <= i < |TrimmedStatements(pieces)| :: Trimmed(TrimmedStatements(pieces)[i])
  {
    if pieces != [] {
      TrimmedStatementsTrimmed(pieces[1..]);
      var t := Trim(pieces[0]);
      var rest := TrimmedStatements(pieces[1..]);
      assert TrimmedStatements(pieces) == (if t == [] then [] else [t]) + rest;
    }
  }

  /** Trimming adds no character: pieces free of c give statements free of c. */
  lemma {:induction false} TrimmedStatementsAvoid(pieces: seq<string>, c: char)
    requires forall j | 0 <= j < |pieces| :: c !in pieces[j]
    ensures forall i | 0 <= i < |TrimmedStatements(pieces)| :: c !in TrimmedStatements(pieces)[i]
  {
    if pieces != [] {
      TrimKeepsCharacters(pieces[0]);
      TrimmedStatementsAvoid(pieces[1..], c);
      var t := Trim(pieces[0]);
      var rest := TrimmedStatements(pieces[1..]);
      assert TrimmedStatements(pieces) == (if t == [] then [] else [t]) + rest;
    }
  }

  /** The statements of a schema file, in source order. None is empty, holds a
      ';', or starts or ends with whitespace. */
  function Statements(schema: string): (stmts: seq<string>)
    ensures forall i | 0 <= i < |stmts| :: stmts[i] != [] && ';' !in stmts[i]
    ensures forall i | 0 <= i < |stmts| :: !IsJsWhitespace(stmts[i][0]) && !IsJsWhitespace(stmts[i][|stmts[i]| - 1])
  {
    var pieces := Split(StripComments(schema), ';');
    TrimmedStatementsAvoid(pieces, ';');
    TrimmedStatementsTrimmed(pieces);
    TrimmedStatements(pieces)
  }

  /** Trimmed, non-empty text is its own trim. */
  lemma TrimOfTrimmed(s: string)
    requires Trimmed(s)
    ensures Trim(s) == s
  {
  }

  lemma {:induction false} TrimmedStatementsOfTrimmed(ss: seq<string>)
    requires forall i | 0 <= i < |ss| :: Trimmed(ss[i])
    ensures TrimmedStatements(ss) == ss
  {
    if ss != [] {
      TrimOfTrimmed(ss[0]);
      forall i | 0 <= i < |ss[1..]| ensures Trimmed(ss[1..][i]) {
        assert ss[1..][i] == ss[i + 1];
      }
      TrimmedStatementsOfTrimmed(ss[1..]);
      assert TrimmedStatements(ss) == [ss[0]] + ss[1..];
      HeadAndTail(ss);
    }
  }

  /** A non-empty sequence is its head followed by its tail. */
  lemma HeadAndTail<T>(s: seq<T>)
    requires s != []
    ensures [s[0]] + s[1..] == s
  {
  }

  /** Joining pieces that avoid c around another separator avoids c. */
  lemma {:induction false} JoinAvoids(parts: seq<string>, sep: char, c: char)
    requires c != sep && forall i | 0 <= i < |parts| :: c !in parts[i]
    ensures c !in Join(parts, sep)
  {
    if |parts| > 1 {
      JoinAvoids(parts[1..], sep, c);
    }
  }

  /** One line that is not a comment passes the filter unchanged. */
  lemma SingleCodeLine(text: string)
    requires '\n' !in text && !IsCommentLine(text)
    ensures StripComments(text) == text
  {
    SplitWithoutSeparator(text, '\n');
    assert KeepCodeLines([text]) == [text];
  }

  /** Text that starts with a character other than whitespace or '-' is not
      a comment line. */
  lemma NotCommentWhenCodeFirst(text: string)
    requires text != [] && !IsJsWhitespace(text[0]) && text[0] != '-'
    ensures !IsCommentLine(text)
  {
    TrimEndKeepsPrefix([text[0]], text[1..]);
    assert [text[0]] + text[1..] == text;
  }

  /** Splitting statements joined by ';' gives them back, provided each is
      trimmed, non-empty, on one line and free of ';', and the first does not
      start with '-'. */
  lemma StatementsOfJoined(ss: seq<string>)
    requires forall i | 0 <= i < |ss| :: Trimmed(ss[i])
    requires forall i | 0 <= i < |ss| :: ';' !in ss[i] && '\n' !in ss[i]
    requires ss != [] ==> ss[0] != [] && ss[0][0] != '-'
    ensures Statements(Join(ss, ';')) == ss
  {
    if ss == [] {
      assert Split(StripComments(""), ';') == [""];
    } else {
      var text := Join(ss, ';');
      JoinedIsOneCodeLine(ss);
      assert Split(StripComments(text), ';') == ss by {
        SplitJoin(ss, ';');
      }
      TrimmedStatementsOfTrimmed(ss);
    }
  }

  /** Those statements joined by ';' make one line of code, which the
      comment filter keeps. */
  lemma JoinedIsOneCodeLine(ss: seq<string>)
    requires ss != [] && ss[0] != [] && ss[0][0] != '-' && !IsJsWhitespace(ss[0][0])
    requires forall i | 0 <= i < |ss| :: '\n' !in ss[i]
    ensures StripComments(Join(ss, ';')) == Join(ss, ';')
  {
    var text := Join(ss, ';');
    JoinAvoids(ss, ';', '\n');
    assert ss[0] <= text;
    NotCommentWhenCodeFirst(text);
    SingleCodeLine(text);
  }

  /** A comment indented by whitespace is a comment line. */
  lemma IndentedComment(indent: string, note: string)
    requires forall k | 0 <= k < |indent| :: IsJsWhitespace(indent[k])
    ensures IsCommentLine(indent + "--" + note)
  {
    assert indent + "--" + note == indent + ("--" + note);
    TrimStartSkips(indent, "--" + note);
    TrimEndKeepsPrefix("--", note);
  }

  /** Code followed by a trailing comment is kept. */
  lemma TrailingCommentKept(code: string, note: string)
    requires code != [] && !IsJsWhitespace(code[0]) && code[0] != '-'
    ensures !IsCommentLine(code + " --" + note)
  {
    var line := code + " --" + note;
    assert line[0] == code[0];
    NotCommentWhenCodeFirst(line);
  }

  // ---------------------------------------------------------------------------
  // Running the statements
  // ---------------------------------------------------------------------------

  /** fs.readFileSync of the schema file. */
  datatype FileRead = Contents(text: string) | ReadError(message: string)

  /** What the database answers to one statement; an error may carry a
      SQLSTATE code. */
  datatype QueryAnswer = Done | Failed(code: Option<string>)

  /** SQLSTATE 42P01, undefined_table: what a DROP of a missing table raises. */
  const UndefinedTable: string := "42P01"

  predicate Tolerated(a: QueryAnswer) {
    a.Done? || a.code == Some(UndefinedTable)
  }

  /** The position of the first answer setup-db.js does not tolerate, n when
      the first n are all tolerated. */
  function FirstFatal(answer: nat -> QueryAnswer, n: nat): (k: nat)
    ensures k <= n
    ensures forall i | 0 <= i < k :: Tolerated(answer(i))
    ensures k < n ==> !Tolerated(answer(k))
  {
    if n == 0 then 0
    else if FirstFatal(answer, n - 1) < n - 1 then FirstFatal(answer, n - 1)
    else if Tolerated(answer(n - 1)) then n else n - 1
  }

  /** What setupDatabase's loop does with the statements `stmts` when the
      database gives answer(i) to the i-th: they are sent in order, the first
      error other than 42P01 stops the loop after being sent with exit code
      1, and completing every statement gives 0. */
  predicate RanInOrder(stmts: seq<string>, answer: nat -> QueryAnswer, executed: seq<string>, exitCode: int) {
    var k := FirstFatal(answer, |stmts|);
    && (k == |stmts| ==> executed == stmts && exitCode == 0)
    && (k < |stmts| ==> executed == stmts[..k + 1] && exitCode == 1)
  }

  /** The loop of setupDatabase over given statements. */
  method RunStatements(stmts: seq<string>, answer: nat -> QueryAnswer) returns (executed: seq<string>, exitCode: int)
    ensures RanInOrder(stmts, answer, executed, exitCode)
  {
    executed := [];
    var i := 0;
    while i < |stmts|
      invariant 0 <= i <= |stmts|
      invariant executed == stmts[..i]
      invariant forall j | 0 <= j < i :: Tolerated(answer(j))
    {
      executed := executed + [stmts[i]];
      if !Tolerated(answer(i)) {
        FirstFatalIs(answer, |stmts|, i);
        return executed, 1;
      }
      i := i + 1;
    }
    assert stmts[..i] == stmts;
    FirstFatalNone(answer, |stmts|);
    exitCode := 0;
  }

  /** setupDatabase: a file that cannot be read exits with 1 before anything
      runs; otherwise its statements run as RanInOrder says. */
  method RunSetup(schema: FileRead, answer: nat -> QueryAnswer) returns (executed: seq<string>, exitCode: int)
    ensures match schema
      case ReadError(_) => executed == [] && exitCode == 1
      case Contents(text) => RanInOrder(Statements(text), answer, executed, exitCode)
  {
    match schema
    case ReadError(_) =>
      return [], 1;
    case Contents(text) =>
      executed, exitCode := RunStatements(Statements(text), answer);
  }

  /** The first answer not tolerated is the first fatal position. */
  lemma {:induction false} FirstFatalIs(answer: nat -> QueryAnswer, n: nat, k: nat)
    requires k < n && !Tolerated(answer(k))
    requires forall j | 0 <= j < k :: Tolerated(answer(j))
    ensures FirstFatal(answer, n) == k
  {
    if n - 1 > k {
      FirstFatalIs(answer, n - 1, k);
    } else {
      FirstFatalNone(answer, k);
    }
  }

  /** All tolerated: no fatal position. */
  lemma {:induction false} FirstFatalNone(answer: nat -> QueryAnswer, n: nat)
    requires forall j | 0 <= j < n :: Tolerated(answer(j))
    ensures FirstFatal(answer, n) == n
  {
    if n > 0 {
      FirstFatalNone(answer, n - 1);
    }
  }

  const InitializedMessage: string :=
    "\U{2705} Cloud Database successfully initialized " + "with tables and sample users!"

  /** The loop of /api/setupdb: every statement is sent and every error
      it raises is caught and dropped. */
  method AttemptAll(stmts: seq<string>) returns (attempted: seq<string>)
    ensures attempted == stmts
  {
    attempted := [];
    for i := 0 to |stmts|
      invariant attempted == stmts[..i]
    {
      attempted := attempted + [stmts[i]];
    }
    assert stmts[..|stmts|] == stmts;
  }

  /** GET /api/setupdb: the same split as setupDatabase, every statement
      attempted. */
  method SetupDbRoute(schema: FileRead) returns (attempted: seq<string>, reply: Reply)
    ensures schema.ReadError? ==> attempted == [] && reply == Text(500, "Error: " + schema.message)
    ensures schema.Contents? ==> attempted == Statements(schema.text) && reply == Text(200, InitializedMessage)
  {
    if schema.ReadError? {
      return [], Text(500, "Error: " + schema.message);
    }
    attempted := AttemptAll(Statements(schema.text));
    reply := Text(200, InitializedMessage);
  }
}
