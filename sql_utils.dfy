/**
 * The SQL script splitter and the statement-shortening helper of src/utils/sql-utils.ts.
 *
 * The splitter is a single left-to-right scan with four lexical flags. Its specification
 * here is built from one scanner step (ScanStep): the raw pieces of a script are cut just
 * after every `;` the scanner reads at top level, and the statements are those pieces
 * trimmed, with the blank ones dropped.
 */
module SqlUtils {

  // ---------------------------------------------------------------------------
  // String.prototype.trim
  // ---------------------------------------------------------------------------

  /** The characters JavaScript's trim removes: WhiteSpace and LineTerminator code points. */
  predicate IsJsWhitespace(c: char) {
    var n := c as int;
    || n == 0x09 || n == 0x0A || n == 0x0B || n == 0x0C || n == 0x0D || n == 0x20
    || n == 0xA0 || n == 0x1680 || (0x2000 <= n <= 0x200A) || n == 0x2028 || n == 0x2029
    || n == 0x202F || n == 0x205F || n == 0x3000 || n == 0xFEFF
  }

  predicate Blank(s: string) {
    forall k :: 0 <= k < |s| ==> IsJsWhitespace(s[k])
  }

  /** The first index at or after `i` that does not hold whitespace (or `|s|`). */
  function SkipWs(s: string, i: nat): (r: nat)
    requires i <= |s|
    ensures i <= r <= |s|
    ensures forall k :: i <= k < r ==> IsJsWhitespace(s[k])
    ensures r < |s| ==> !IsJsWhitespace(s[r])
    decreases |s| - i
  {
    if i < |s| && IsJsWhitespace(s[i]) then SkipWs(s, i + 1) else i
  }

  /** The least index `r >= lo` such that `s[r..j]` is all whitespace. */
  function SkipWsBack(s: string, lo: nat, j: nat): (r: nat)
    requires lo <= j <= |s|
    ensures lo <= r <= j
    ensures forall k :: r <= k < j ==> IsJsWhitespace(s[k])
    ensures r > lo ==> !IsJsWhitespace(s[r - 1])
  {
    if j > lo && IsJsWhitespace(s[j - 1]) then SkipWsBack(s, lo, j - 1) else j
  }

  /** Where the trimmed text of `s` begins and ends. */
  function TrimBounds(s: string): (b: (nat, nat))
    ensures b.0 <= b.1 <= |s|
  {
    var a := SkipWs(s, 0);
    (a, SkipWsBack(s, a, |s|))
  }

  /** JavaScript's `str.trim()`: `s` without its leading and trailing whitespace. */
  function Trim(s: string): (r: string)
    ensures |r| > 0 ==> !IsJsWhitespace(r[0]) && !IsJsWhitespace(r[|r| - 1])
    ensures |r| == 0 <==> Blank(s)
  {
    var (a, b) := TrimBounds(s);
    assert a == b ==> Blank(s) by {
      if a == b {
        forall k | 0 <= k < |s| ensures IsJsWhitespace(s[k]) { }
      }
    }
    s[a..b]
  }

  /** Trimming removes a blank prefix and a blank suffix and nothing else. */
  lemma TrimIsInfix(s: string)
    ensures var (a, b) := TrimBounds(s);
            Trim(s) == s[a..b] && Blank(s[..a]) && Blank(s[b..])
  {
    var (a, b) := TrimBounds(s);
    forall k | 0 <= k < a ensures IsJsWhitespace(s[..a][k]) { }
    forall k | 0 <= k < |s| - b ensures IsJsWhitespace(s[b..][k]) { assert s[b..][k] == s[b + k]; }
  }

  // ---------------------------------------------------------------------------
  // The scanner
  // ---------------------------------------------------------------------------

  /** The four lexical flags of the scan. */
  datatype Lexer = Lexer(inSingleQuote: bool, inDoubleQuote: bool, inLineComment: bool, inBlockComment: bool)

  const TopLevel := Lexer(false, false, false, false)

  /** At most one flag is ever set: the contexts exclude each other. */
  predicate Exclusive(lx: Lexer) {
    (if lx.inSingleQuote then 1 else 0) + (if lx.inDoubleQuote then 1 else 0)
    + (if lx.inLineComment then 1 else 0) + (if lx.inBlockComment then 1 else 0) <= 1
  }

  /**
   * One turn of the scanning loop: how many characters it appends to the current statement,
   * the flags after it, and whether it ends the statement.
   */
  datatype Step = Step(width: nat, next: Lexer, ends: bool)

  /** `sql[i + 1] === c`; false when `sql[i + 1]` is past the end (undefined in JavaScript). */
  predicate NextIs(s: string, i: nat, c: char) {
    i + 1 < |s| && s[i + 1] == c
  }

  /** The turn the scanner takes at position `i` with flags `lx` (sql-utils.ts lines 14-79). */
  function ScanStep(s: string, i: nat, lx: Lexer): (st: Step)
    requires i < |s|
    ensures 1 <= st.width <= |s| - i
    ensures st.ends <==> lx == TopLevel && s[i] == ';'
    ensures st.ends ==> st.width == 1 && st.next == TopLevel
    ensures st.width == 2 ==> (s[i] == '/' && s[i + 1] == '*') || (s[i] == '*' && s[i + 1] == '/')
                              || (s[i] == '\'' && s[i + 1] == '\'')
  {
    var c := s[i];
    if !lx.inSingleQuote && !lx.inDoubleQuote && !lx.inBlockComment && c == '-' && NextIs(s, i, '-') then
      Step(1, lx.(inLineComment := true), false)
    else if lx.inLineComment then
      Step(1, lx.(inLineComment := !(c == '\n' || c == '\r')), false)
    else if !lx.inSingleQuote && !lx.inDoubleQuote && c == '/' && NextIs(s, i, '*') then
      Step(2, lx.(inBlockComment := true), false)
    else if lx.inBlockComment then
      if c == '*' && NextIs(s, i, '/') then Step(2, lx.(inBlockComment := false), false)
      else Step(1, lx, false)
    else if c == '\'' && !lx.inDoubleQuote then
      if lx.inSingleQuote && NextIs(s, i, '\'') then Step(2, lx, false)
      else Step(1, lx.(inSingleQuote := !lx.inSingleQuote), false)
    else if c == '"' && !lx.inSingleQuote then
      Step(1, lx.(inDoubleQuote := !lx.inDoubleQuote), false)
    else if c == ';' && !lx.inSingleQuote && !lx.inDoubleQuote then
      Step(1, lx, true)
    else
      Step(1, lx, false)
  }

  /** Each turn keeps the four contexts mutually exclusive. */
  lemma ScanStepExclusive(s: string, i: nat, lx: Lexer)
    requires i < |s| && Exclusive(lx)
    ensures Exclusive(ScanStep(s, i, lx).next)
  {
  }

  /**
   * The raw pieces of `s[start..]` when the scan is at `i` with flags `lx`: each piece ends
   * just after a top-level `;`, and the last one is whatever is left when the input runs out.
   */
  function PiecesFrom(s: string, i: nat, lx: Lexer, start: nat): (ps: seq<string>)
    requires start <= i <= |s|
    ensures |ps| >= 1
    decreases |s| - i
  {
    if i == |s| then [s[start..]]
    else
      var st := ScanStep(s, i, lx);
      if st.ends then [s[start..i + 1]] + PiecesFrom(s, i + 1, TopLevel, i + 1)
      else PiecesFrom(s, i + st.width, st.next, start)
  }

  function Pieces(s: string): seq<string> {
    PiecesFrom(s, 0, TopLevel, 0)
  }

  /** The pieces trimmed, blank ones dropped. */
  function Statements(ps: seq<string>): seq<string> {
    if ps == [] then []
    else
      var t := Trim(ps[0]);
      (if |t| > 0 then [t] else []) + Statements(ps[1..])
  }

  /** What `splitSqlStatements(s)` returns. */
  function SplitSql(s: string): seq<string> {
    Statements(Pieces(s))
  }

  function Concat(ps: seq<string>): string {
    if ps == [] then [] else ps[0] + Concat(ps[1..])
  }

  lemma StatementsCons(p: string, rest: seq<string>)
    ensures Statements([p] + rest) == (if |Trim(p)| > 0 then [Trim(p)] else []) + Statements(rest)
  {
    assert ([p] + rest)[1..] == rest;
  }

  lemma AppendAssoc<T>(a: seq<T>, b: seq<T>, c: seq<T>)
    ensures a + (b + c) == a + b + c
  {
  }

  /** One turn of the scan, in terms of the pieces still to come. */
  lemma PiecesAdvance(s: string, i: nat, lx: Lexer, start: nat)
    requires start <= i < |s|
    ensures var st := ScanStep(s, i, lx);
            if st.ends then
              PiecesFrom(s, i, lx, start) == [s[start..i + 1]] + PiecesFrom(s, i + 1, TopLevel, i + 1)
            else
              PiecesFrom(s, i, lx, start) == PiecesFrom(s, i + st.width, st.next, start)
  {
  }

  lemma {:induction false} StatementsAppend(ps: seq<string>, qs: seq<string>)
    ensures Statements(ps + qs) == Statements(ps) + Statements(qs)
    decreases |ps|
  {
    if ps == [] {
      assert ps + qs == qs;
    } else {
      var t := Trim(ps[0]);
      var kept := if |t| > 0 then [t] else [];
      assert (ps + qs)[0] == ps[0];
      assert (ps + qs)[1..] == ps[1..] + qs;
      assert Statements(ps + qs) == kept + Statements(ps[1..] + qs);
      StatementsAppend(ps[1..], qs);
      assert Statements(ps) == kept + Statements(ps[1..]);
      AppendAssoc(kept, Statements(ps[1..]), Statements(qs));
    }
  }

  /**
   * What one turn of the loop does, as ScanStep describes it: it appends the characters the
   * turn consumes, and at a top-level `;` it pushes the trimmed statement (when non-blank)
   * and starts a new one.
   */
  predicate TurnEffect(sql: string, i: nat, lx: Lexer, current: string, statements: seq<string>,
                       i': nat, lx': Lexer, current': string, statements': seq<string>)
    requires i < |sql|
  {
    var st := ScanStep(sql, i, lx);
    && i' == i + st.width && lx' == st.next
    && (!st.ends ==> current' == current + sql[i..i'] && statements' == statements)
    && (st.ends ==> (current' == ""
          && var t := Trim(current + [sql[i]]);
             statements' == statements + (if |t| > 0 then [t] else [])))
  }

  /**
   * The body of the `for` loop of `splitSqlStatements` (sql-utils.ts lines 10-79): one turn
   * at position `i`, with the source's four flags, its `currentStatement` accumulator and its
   * `statements` list. It does what ScanStep describes: it appends the characters the turn
   * consumes, and at a top-level `;` it pushes the trimmed statement (when non-blank) and
   * starts a new one.
   */
  method ScanTurn(sql: string, i: nat, lx: Lexer, current: string, statements: seq<string>)
    returns (i': nat, lx': Lexer, current': string, statements': seq<string>)
    requires i < |sql|
    ensures TurnEffect(sql, i, lx, current, statements, i', lx', current', statements')
  {
    var inSingleQuote, inDoubleQuote, inLineComment, inBlockComment :=
      lx.inSingleQuote, lx.inDoubleQuote, lx.inLineComment, lx.inBlockComment;
    current', statements', i' := current, statements, i;
    var c := sql[i'];
    var nextIsDash := i' + 1 < |sql| && sql[i' + 1] == '-';
    var nextIsStar := i' + 1 < |sql| && sql[i' + 1] == '*';
    var nextIsSlash := i' + 1 < |sql| && sql[i' + 1] == '/';
    var nextIsQuote := i' + 1 < |sql| && sql[i' + 1] == '\'';

    if !inSingleQuote && !inDoubleQuote && !inBlockComment && c == '-' && nextIsDash {
      // line comments
      inLineComment := true;
      current' := current' + [c];
      i' := i' + 1;
    } else if inLineComment {
      current' := current' + [c];
      if c == '\n' || c == '\r' {
        inLineComment := false;
      }
      i' := i' + 1;
    } else if !inSingleQuote && !inDoubleQuote && !inLineComment && c == '/' && nextIsStar {
      // block comments
      inBlockComment := true;
      current' := current' + [c];
      i' := i' + 1;
      current' := current' + [sql[i']];
      i' := i' + 1;
    } else if inBlockComment {
      if c == '*' && nextIsSlash {
        inBlockComment := false;
        current' := current' + [c];
        i' := i' + 1;
        current' := current' + [sql[i']];
        i' := i' + 1;
      } else {
        current' := current' + [c];
        i' := i' + 1;
      }
    } else if c == '\'' && !inDoubleQuote && !inLineComment && !inBlockComment {
      // single quotes; a doubled quote inside a string is consumed as a pair
      if inSingleQuote && nextIsQuote {
        current' := current' + [c];
        i' := i' + 1;
        current' := current' + [sql[i']];
        i' := i' + 1;
      } else {
        inSingleQuote := !inSingleQuote;
        current' := current' + [c];
        i' := i' + 1;
      }
    } else if c == '"' && !inSingleQuote && !inLineComment && !inBlockComment {
      // double quotes
      inDoubleQuote := !inDoubleQuote;
      current' := current' + [c];
      i' := i' + 1;
    } else if c == ';' && !inSingleQuote && !inDoubleQuote && !inLineComment && !inBlockComment {
      // a top-level semicolon ends the statement, and stays in it
      current' := current' + [c];
      var trimmed := Trim(current');
      if |trimmed| > 0 {
        statements' := statements' + [trimmed];
      }
      current' := "";
      i' := i' + 1;
    } else {
      current' := current' + [c];
      i' := i' + 1;
    }
    lx' := Lexer(inSingleQuote, inDoubleQuote, inLineComment, inBlockComment);
    assert i' == i + 2 ==> sql[i..i'] == [sql[i], sql[i + 1]];
  }

  /** What the loop of `splitSqlStatements` keeps true, with `start` and `done` as ghost state. */
  ghost predicate ScanInvariant(sql: string, i: nat, lx: Lexer, current: string, statements: seq<string>,
                                start: nat, done: seq<string>)
  {
    && start <= i <= |sql|
    && current == sql[start..i]
    && Exclusive(lx)
    && done + PiecesFrom(sql, i, lx, start) == Pieces(sql)
    && statements == Statements(done)
  }

  /** One turn of ScanTurn keeps ScanInvariant, with the ghost state advanced as returned. */
  lemma ScanTurnKeepsInvariant(sql: string, i: nat, lx: Lexer, current: string, statements: seq<string>,
                               start: nat, done: seq<string>,
                               i': nat, lx': Lexer, current': string, statements': seq<string>)
    returns (start': nat, done': seq<string>)
    requires i < |sql| && ScanInvariant(sql, i, lx, current, statements, start, done)
    requires TurnEffect(sql, i, lx, current, statements, i', lx', current', statements')
    ensures ScanInvariant(sql, i', lx', current', statements', start', done')
  {
    var st := ScanStep(sql, i, lx);
    if st.ends {
      start', done' := i', done + [sql[start..i']];
      CutKeepsInvariant(sql, i, lx, current, statements, start, done);
    } else {
      start', done' := start, done;
      ContinueKeepsInvariant(sql, i, lx, current, statements, start, done);
    }
  }

  /** A turn that ends a statement cuts off the piece read so far. */
  lemma CutKeepsInvariant(sql: string, i: nat, lx: Lexer, current: string, statements: seq<string>,
                          start: nat, done: seq<string>)
    requires i < |sql| && ScanInvariant(sql, i, lx, current, statements, start, done)
    requires ScanStep(sql, i, lx).ends
    ensures var t := Trim(current + [sql[i]]);
            ScanInvariant(sql, i + 1, TopLevel, "", statements + (if |t| > 0 then [t] else []),
                          i + 1, done + [sql[start..i + 1]])
  {
    var piece := sql[start..i + 1];
    assert current + [sql[i]] == piece;
    var t := Trim(piece);
    StatementsAppend(done, [piece]);
    StatementsCons(piece, []);
    assert (if |t| > 0 then [t] else []) + [] == (if |t| > 0 then [t] else []);
    PiecesAdvance(sql, i, lx, start);
    AppendAssoc(done, [piece], PiecesFrom(sql, i + 1, TopLevel, i + 1));
  }

  /** Any other turn only extends the current piece. */
  lemma ContinueKeepsInvariant(sql: string, i: nat, lx: Lexer, current: string, statements: seq<string>,
                               start: nat, done: seq<string>)
    requires i < |sql| && ScanInvariant(sql, i, lx, current, statements, start, done)
    requires !ScanStep(sql, i, lx).ends
    ensures var st := ScanStep(sql, i, lx);
            ScanInvariant(sql, i + st.width, st.next, current + sql[i..i + st.width], statements, start, done)
  {
    var st := ScanStep(sql, i, lx);
    ScanStepExclusive(sql, i, lx);
    PiecesAdvance(sql, i, lx, start);
    assert sql[start..i + st.width] == sql[start..i] + sql[i..i + st.width];
  }

  /** `splitSqlStatements` (sql-utils.ts lines 1-89): the scan, then the unterminated tail. */
  method SplitSqlStatements(sql: string) returns (statements: seq<string>)
    ensures statements == SplitSql(sql)
  {
    statements := [];
    var current := "";
    var lx := TopLevel;
    ghost var start: nat := 0;
    ghost var done: seq<string> := [];  // the pieces already cut off
    var i := 0;
    while i < |sql|
      invariant ScanInvariant(sql, i, lx, current, statements, start, done)
      decreases |sql| - i
    {
      var i', lx', current', statements' := ScanTurn(sql, i, lx, current, statements);
      start, done := ScanTurnKeepsInvariant(sql, i, lx, current, statements, start, done,
                                            i', lx', current', statements');
      i, lx, current, statements := i', lx', current', statements';
    }
    // the last statement, if the script does not end with a semicolon
    var trimmed := Trim(current);
    if |trimmed| > 0 {
      statements := statements + [trimmed];
    }
    ScanFinished(sql, lx, current, start, done);
  }

  /** When the input runs out, the text left over is the last piece. */
  lemma ScanFinished(sql: string, lx: Lexer, current: string, start: nat, done: seq<string>)
    requires ScanInvariant(sql, |sql|, lx, current, Statements(done), start, done)
    ensures var t := Trim(current);
            Statements(done) + (if |t| > 0 then [t] else []) == SplitSql(sql)
  {
    StatementsAppend(done, [current]);
    assert current == sql[start..];
    assert done + [current] == Pieces(sql);
  }

  // ---------------------------------------------------------------------------
  // trimStatement
  // ---------------------------------------------------------------------------

  /** Where `str.slice(0, end)` stops in a string of length `len`: a negative end counts from the back. */
  function SliceEnd(len: nat, end: int): (e: nat)
    ensures e <= len
    ensures 0 <= end ==> e == if end < len then end else len
    ensures end < 0 ==> e == if len + end > 0 then len + end else 0
  {
    if end < 0 then (if len + end > 0 then len + end else 0)
    else if end < len then end
    else len
  }

  /**
   * `trimStatement` (sql-utils.ts lines 91-96): a string that fits is returned as it is;
   * a longer one keeps its first `maxLength - 3` characters and, when asked, gets `...`.
   */
  function TrimStatement(str: string, maxLength: int, ellipsis: bool): (r: string)
    ensures |str| <= maxLength ==> r == str
    ensures |str| > maxLength ==>
              var kept := SliceEnd(|str|, maxLength - 3);
              && kept <= |r| && r[..kept] == str[..kept]
              && r[kept..] == (if ellipsis then "..." else "")
  {
    if |str| <= maxLength then str
    else str[..SliceEnd(|str|, maxLength - 3)] + (if ellipsis then "..." else "")
  }

  /** With `maxLength >= 3` a shortened string is exactly `maxLength` long with the ellipsis. */
  lemma TrimStatementLength(str: string, maxLength: int, ellipsis: bool)
    requires 3 <= maxLength
    ensures var r := TrimStatement(str, maxLength, ellipsis);
            && |r| <= maxLength
            && (|str| > maxLength ==> |r| == if ellipsis then maxLength else maxLength - 3)
  {
  }

  // ---------------------------------------------------------------------------
  // What the splitter promises
  // ---------------------------------------------------------------------------

  lemma ConcatCons(p: string, rest: seq<string>)
    ensures Concat([p] + rest) == p + Concat(rest)
  {
    assert ([p] + rest)[1..] == rest;
  }

  /** The pieces from `start` glue back together into the rest of the script. */
  lemma {:induction false} PiecesFromConcat(s: string, i: nat, lx: Lexer, start: nat)
    requires start <= i <= |s|
    ensures Concat(PiecesFrom(s, i, lx, start)) == s[start..]
    decreases |s| - i
  {
    if i == |s| {
      assert PiecesFrom(s, i, lx, start) == [s[start..]];
      ConcatCons(s[start..], []);
    } else {
      var st := ScanStep(s, i, lx);
      if st.ends {
        PiecesFromConcat(s, i + 1, TopLevel, i + 1);
        ConcatCons(s[start..i + 1], PiecesFrom(s, i + 1, TopLevel, i + 1));
        assert s[start..i + 1] + s[i + 1..] == s[start..];
      } else {
        PiecesFromConcat(s, i + st.width, st.next, start);
      }
    }
  }

  /** No character of the script is lost, added or moved when it is cut into pieces. */
  lemma PiecesConcat(s: string)
    ensures Concat(Pieces(s)) == s
  {
    PiecesFromConcat(s, 0, TopLevel, 0);
  }

  /** Every piece but the last ends with the `;` it was cut after. */
  predicate CutAtSemicolons(ps: seq<string>) {
    forall k :: 0 <= k < |ps| - 1 ==> EndsWithSemicolon(ps[k])
  }

  predicate EndsWithSemicolon(p: string) {
    |p| > 0 && p[|p| - 1] == ';'
  }

  /** The pieces are cut just after a `;` the scanner read at top level. */
  lemma {:induction false} PiecesFromCut(s: string, i: nat, lx: Lexer, start: nat)
    requires start <= i <= |s|
    ensures CutAtSemicolons(PiecesFrom(s, i, lx, start))
    decreases |s| - i
  {
    if i < |s| {
      var st := ScanStep(s, i, lx);
      PiecesAdvance(s, i, lx, start);
      if st.ends {
        var rest := PiecesFrom(s, i + 1, TopLevel, i + 1);
        PiecesFromCut(s, i + 1, TopLevel, i + 1);
        assert EndsWithSemicolon(s[start..i + 1]);
        var ps := [s[start..i + 1]] + rest;
        forall k | 0 <= k < |ps| - 1 ensures EndsWithSemicolon(ps[k]) {
          if k > 0 { assert ps[k] == rest[k - 1]; }
        }
      } else {
        PiecesFromCut(s, i + st.width, st.next, start);
      }
    }
  }

  lemma PiecesCut(s: string)
    ensures CutAtSemicolons(Pieces(s))
  {
    PiecesFromCut(s, 0, TopLevel, 0);
  }

  /** A trimmed statement: non-empty, with no whitespace at either end. */
  predicate Trimmed(t: string) {
    |t| > 0 && !IsJsWhitespace(t[0]) && !IsJsWhitespace(t[|t| - 1])
  }

  /** Every statement returned is non-empty and carries no leading or trailing whitespace. */
  lemma {:induction false} StatementsTrimmed(ps: seq<string>)
    ensures forall t :: t in Statements(ps) ==> Trimmed(t)
    decreases |ps|
  {
    if ps != [] {
      StatementsTrimmed(ps[1..]);
    }
  }

  lemma SplitSqlTrimmed(s: string)
    ensures forall t :: t in SplitSql(s) ==> Trimmed(t)
  {
    StatementsTrimmed(Pieces(s));
  }

  /** The characters of `s` other than whitespace, in order. */
  function Ink(s: string): (r: string)
    ensures |r| <= |s|
  {
    if s == [] then []
    else (if IsJsWhitespace(s[0]) then [] else [s[0]]) + Ink(s[1..])
  }

  lemma {:induction false} InkAppend(a: string, b: string)
    ensures Ink(a + b) == Ink(a) + Ink(b)
    decreases |a|
  {
    if a == [] {
      assert a + b == b;
    } else {
      assert (a + b)[1..] == a[1..] + b;
      InkAppend(a[1..], b);
    }
  }

  lemma {:induction false} InkBlank(s: string)
    requires Blank(s)
    ensures Ink(s) == []
    decreases |s|
  {
    if s != [] {
      InkBlank(s[1..]);
    }
  }

  /** Trimming only ever removes whitespace. */
  lemma InkTrim(s: string)
    ensures Ink(Trim(s)) == Ink(s)
  {
    var (a, b) := TrimBounds(s);
    TrimIsInfix(s);
    assert s == s[..a] + s[a..b] + s[b..];
    InkAppend(s[..a] + s[a..b], s[b..]);
    InkAppend(s[..a], s[a..b]);
    InkBlank(s[..a]);
    InkBlank(s[b..]);
  }

  lemma {:induction false} InkStatements(ps: seq<string>)
    ensures Ink(Concat(Statements(ps))) == Ink(Concat(ps))
    decreases |ps|
  {
    if ps != [] {
      var t := Trim(ps[0]);
      var kept := if |t| > 0 then [t] else [];
      InkStatements(ps[1..]);
      assert Statements(ps) == kept + Statements(ps[1..]);
      ConcatAppend(kept, Statements(ps[1..]));
      InkAppend(Concat(kept), Concat(Statements(ps[1..])));
      ConcatCons(ps[0], ps[1..]);
      assert [ps[0]] + ps[1..] == ps;
      InkAppend(ps[0], Concat(ps[1..]));
      InkTrim(ps[0]);
      if |t| > 0 {
        ConcatCons(t, []);
        assert Concat(kept) == t + [];
        assert t + [] == t;
      } else {
        InkBlank(ps[0]);
      }
    }
  }

  lemma {:induction false} ConcatAppend(ps: seq<string>, qs: seq<string>)
    ensures Concat(ps + qs) == Concat(ps) + Concat(qs)
    decreases |ps|
  {
    if ps == [] {
      assert ps + qs == qs;
    } else {
      assert (ps + qs)[1..] == ps[1..] + qs;
      ConcatAppend(ps[1..], qs);
    }
  }

  /**
   * Nothing but whitespace is lost or reordered: the statements, glued back together, hold
   * exactly the non-whitespace characters of the script, in their order.
   */
  lemma SplitSqlKeepsInk(s: string)
    ensures Ink(Concat(SplitSql(s))) == Ink(s)
  {
    InkStatements(Pieces(s));
    PiecesConcat(s);
  }

  // ---------------------------------------------------------------------------
  // Worked examples
  // ---------------------------------------------------------------------------

  /** A character that, in context `lx`, the scanner only appends. */
  predicate Quiet(c: char, lx: Lexer) {
    if lx.inSingleQuote then c != '\''
    else if lx.inDoubleQuote then c != '"'
    else if lx.inLineComment then c != '\n' && c != '\r'
    else if lx.inBlockComment then c != '*' && c != '/'
    else c != '-' && c != '/' && c != '\'' && c != '"' && c != ';'
  }

  /** A run of quiet characters moves the scan forward without changing anything else. */
  lemma {:induction false} QuietRun(s: string, i: nat, j: nat, lx: Lexer, start: nat)
    requires start <= i <= j <= |s| && Exclusive(lx)
    requires forall k :: i <= k < j ==> Quiet(s[k], lx)
    ensures PiecesFrom(s, i, lx, start) == PiecesFrom(s, j, lx, start)
    decreases j - i
  {
    if i < j {
      assert Quiet(s[i], lx);
      assert ScanStep(s, i, lx) == Step(1, lx, false);
      QuietRun(s, i + 1, j, lx, start);
    }
  }

  lemma TrimTrimmed(t: string)
    requires Trimmed(t)
    ensures Trim(t) == t
  {
  }

}
