/**
 * Worked examples of splitSqlStatements (src/utils/sql-utils.ts), each proved against the
 * specification SplitSql. Every example is cut into stages: one lemma per stretch of the scan.
 */
module SqlExamples {
  import opened SqlUtils

  lemma TrimLeading(t: string)
    requires |t| > 0 && IsJsWhitespace(t[0]) && Trimmed(t[1..])
    ensures Trim(t) == t[1..]
  {
    assert SkipWs(t, 1) == 1;
  }

  /** A script that is one piece: the statement is the whole script. */
  lemma SinglePiece(s: string)
    requires Pieces(s) == [s] && Trimmed(s)
    ensures SplitSql(s) == [s]
  {
    TrimTrimmed(s);
    StatementsCons(s, []);
    assert [s] + [] == [s];
  }

  // "SELECT 1;;": the second `;` is appended before trimming, so it is a statement of its own.

  lemma BareSemicolonPieces(s: string)
    requires s == "SELECT 1;;"
    ensures Pieces(s) == [s[0..9], s[9..10], s[10..]]
  {
    assert forall k :: 0 <= k < 8 ==> Quiet(s[k], TopLevel);
    QuietRun(s, 0, 8, TopLevel, 0);
    PiecesAdvance(s, 8, TopLevel, 0);
    PiecesAdvance(s, 9, TopLevel, 9);
  }

  lemma BareSemicolon(s: string)
    requires s == "SELECT 1;;"
    ensures SplitSql(s) == ["SELECT 1;", ";"]
  {
    BareSemicolonPieces(s);
    var p0, p1, p2 := s[0..9], s[9..10], s[10..];
    assert p0 == "SELECT 1;" && p1 == ";" && p2 == "";
    TrimTrimmed(p0);
    TrimTrimmed(p1);
    StatementsCons(p0, [p1, p2]);
    StatementsCons(p1, [p2]);
    StatementsCons(p2, []);
  }

  // "SELECT 'it''s'; SELECT 2": the doubled quote does not close the string.

  const InSingleQuote := Lexer(true, false, false, false)

  lemma DoubledQuoteOpen(s: string)
    requires s == "SELECT 'it''s'; SELECT 2"
    ensures PiecesFrom(s, 0, TopLevel, 0) == PiecesFrom(s, 8, InSingleQuote, 0)
  {
    assert forall k :: 0 <= k < 7 ==> Quiet(s[k], TopLevel);
    QuietRun(s, 0, 7, TopLevel, 0);
    assert ScanStep(s, 7, TopLevel) == Step(1, InSingleQuote, false);
    PiecesAdvance(s, 7, TopLevel, 0);
  }

  lemma DoubledQuoteInside(s: string)
    requires s == "SELECT 'it''s'; SELECT 2"
    ensures PiecesFrom(s, 8, InSingleQuote, 0) == PiecesFrom(s, 13, InSingleQuote, 0)
  {
    assert forall k :: 8 <= k < 10 ==> Quiet(s[k], InSingleQuote);
    QuietRun(s, 8, 10, InSingleQuote, 0);
    // the pair `''` is consumed in one turn and the string stays open
    assert ScanStep(s, 10, InSingleQuote) == Step(2, InSingleQuote, false);
    PiecesAdvance(s, 10, InSingleQuote, 0);
    assert Quiet(s[12], InSingleQuote);
    QuietRun(s, 12, 13, InSingleQuote, 0);
  }

  lemma DoubledQuoteClose(s: string)
    requires s == "SELECT 'it''s'; SELECT 2"
    ensures PiecesFrom(s, 13, InSingleQuote, 0) == [s[0..15]] + PiecesFrom(s, 15, TopLevel, 15)
  {
    assert ScanStep(s, 13, InSingleQuote) == Step(1, TopLevel, false);
    PiecesAdvance(s, 13, InSingleQuote, 0);
    assert ScanStep(s, 14, TopLevel) == Step(1, TopLevel, true);
    PiecesAdvance(s, 14, TopLevel, 0);
  }

  lemma DoubledQuoteTail(s: string)
    requires s == "SELECT 'it''s'; SELECT 2"
    ensures PiecesFrom(s, 15, TopLevel, 15) == [s[15..]]
  {
    assert forall k :: 15 <= k < 24 ==> Quiet(s[k], TopLevel);
    QuietRun(s, 15, 24, TopLevel, 15);
  }

  lemma DoubledQuotePieces(s: string)
    requires s == "SELECT 'it''s'; SELECT 2"
    ensures Pieces(s) == [s[0..15], s[15..]]
  {
    DoubledQuoteOpen(s);
    DoubledQuoteInside(s);
    DoubledQuoteClose(s);
    DoubledQuoteTail(s);
  }

  lemma DoubledQuote(s: string)
    requires s == "SELECT 'it''s'; SELECT 2"
    ensures SplitSql(s) == ["SELECT 'it''s';", "SELECT 2"]
  {
    DoubledQuotePieces(s);
    var p0, p1 := s[0..15], s[15..];
    assert p0 == "SELECT 'it''s';" && p1 == " SELECT 2";
    TrimTrimmed(p0);
    TrimLeading(p1);
    StatementsCons(p0, [p1]);
    StatementsCons(p1, []);
    assert p1[1..] == "SELECT 2";
  }

  // "SELECT 1 -- x;\nSELECT 2": the `;` inside the line comment does not end the statement.

  const InLineComment := Lexer(false, false, true, false)

  lemma LineCommentOpen(s: string)
    requires s == "SELECT 1 -- x;\nSELECT 2"
    ensures PiecesFrom(s, 0, TopLevel, 0) == PiecesFrom(s, 10, InLineComment, 0)
  {
    assert forall k :: 0 <= k < 9 ==> Quiet(s[k], TopLevel);
    QuietRun(s, 0, 9, TopLevel, 0);
    assert ScanStep(s, 9, TopLevel) == Step(1, InLineComment, false);
    PiecesAdvance(s, 9, TopLevel, 0);
  }

  lemma LineCommentBody(s: string)
    requires s == "SELECT 1 -- x;\nSELECT 2"
    ensures PiecesFrom(s, 10, InLineComment, 0) == PiecesFrom(s, 15, TopLevel, 0)
  {
    assert forall k :: 10 <= k < 14 ==> Quiet(s[k], InLineComment);
    QuietRun(s, 10, 14, InLineComment, 0);
    assert ScanStep(s, 14, InLineComment) == Step(1, TopLevel, false);
    PiecesAdvance(s, 14, InLineComment, 0);
  }

  lemma LineCommentTail(s: string)
    requires s == "SELECT 1 -- x;\nSELECT 2"
    ensures PiecesFrom(s, 15, TopLevel, 0) == [s]
  {
    assert forall k :: 15 <= k < 23 ==> Quiet(s[k], TopLevel);
    QuietRun(s, 15, 23, TopLevel, 0);
    assert s[0..] == s;
  }

  lemma LineComment(s: string)
    requires s == "SELECT 1 -- x;\nSELECT 2"
    ensures SplitSql(s) == [s]
  {
    LineCommentOpen(s);
    LineCommentBody(s);
    LineCommentTail(s);
    SinglePiece(s);
  }

  // "SELECT 'a;b": an unterminated string is no error; what was read becomes the statement.

  lemma UnterminatedQuotePieces(s: string)
    requires s == "SELECT 'a;b"
    ensures Pieces(s) == [s]
  {
    assert forall k :: 0 <= k < 7 ==> Quiet(s[k], TopLevel);
    QuietRun(s, 0, 7, TopLevel, 0);
    assert ScanStep(s, 7, TopLevel) == Step(1, InSingleQuote, false);
    PiecesAdvance(s, 7, TopLevel, 0);
    assert forall k :: 8 <= k < 11 ==> Quiet(s[k], InSingleQuote);
    QuietRun(s, 8, 11, InSingleQuote, 0);
    assert s[0..] == s;
  }

  lemma UnterminatedQuote(s: string)
    requires s == "SELECT 'a;b"
    ensures SplitSql(s) == [s]
  {
    UnterminatedQuotePieces(s);
    SinglePiece(s);
  }
}
