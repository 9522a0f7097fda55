/**
  The spreadsheet upload route (app/api/parse-excel/route.ts): the request guards and the
  mapping of each sheet row to a question with the English/Arabic fallback. The same row
  mapping is used by the master dashboard's import page.
*/
module ParseExcel {
  import opened Common

  const MaxFileSize: nat := 10 * 1024 * 1024

  /** A sheet row as `sheet_to_json` yields it: header text to cell text; absent cells are missing keys. */
  type Row = map<string, string>

  /** The header spellings tried for each column, in the order the `||` chains try them. */
  const QuestionEnKeys: seq<string> := ["Question EN", "Question_EN", "question_en", "Question", "question"]
  const QuestionArKeys: seq<string> := ["Question AR", "Question_AR", "question_ar"]
  const AnswerEnKeys: seq<string> := ["Answer EN", "Answer_EN", "answer_en", "Answer", "answer"]
  const AnswerArKeys: seq<string> := ["Answer AR", "Answer_AR", "answer_ar"]

  /** A cell that `||` skips: missing (`undefined`) or the empty string. */
  predicate Blank(row: Row, key: string) {
    key !in row || row[key] == ""
  }

  /** `row[k1] || row[k2] || ... || ""`: the first non-blank cell among `keys`. */
  function FirstNonEmpty(row: Row, keys: seq<string>): (v: string)
    ensures v == "" <==> forall k :: k in keys ==> Blank(row, k)
    ensures v != "" ==> exists i :: (0 <= i < |keys| && keys[i] in row && row[keys[i]] == v
      && forall j :: 0 <= j < i ==> Blank(row, keys[j]))
  {
    if keys == [] then ""
    else if !Blank(row, keys[0]) then row[keys[0]]
    else
      var v := FirstNonEmpty(row, keys[1..]);
      assert forall k :: k in keys ==> k == keys[0] || k in keys[1..];
      if v != "" then
        var i :| 0 <= i < |keys[1..]| && keys[1..][i] in row && row[keys[1..][i]] == v
          && forall j :: 0 <= j < i ==> Blank(row, keys[1..][j]);
        assert keys[i + 1] == keys[1..][i];
        assert forall j :: 1 <= j < i + 1 ==> keys[j] == keys[1..][j - 1];
        v
      else v
  }

  /** The four texts of one parsed question. */
  datatype Extracted = Extracted(questionEn: string, questionAr: string, answerEn: string, answerAr: string)

  /** One row: each language falls back to the other when its own cell is blank. */
  function MapRow(row: Row): (q: Extracted)
    ensures var qEn, qAr := FirstNonEmpty(row, QuestionEnKeys), FirstNonEmpty(row, QuestionArKeys);
      && (q.questionEn == "" <==> qEn == "" && qAr == "")
      && (q.questionAr == "" <==> qEn == "" && qAr == "")
      && (qEn != "" ==> q.questionEn == qEn) && (qAr != "" ==> q.questionAr == qAr)
      && (qAr == "" ==> q.questionAr == q.questionEn) && (qEn == "" ==> q.questionEn == q.questionAr)
    ensures var aEn, aAr := FirstNonEmpty(row, AnswerEnKeys), FirstNonEmpty(row, AnswerArKeys);
      && (q.answerEn == "" <==> aEn == "" && aAr == "")
      && (q.answerAr == "" <==> aEn == "" && aAr == "")
      && (aEn != "" ==> q.answerEn == aEn) && (aAr != "" ==> q.answerAr == aAr)
      && (aAr == "" ==> q.answerAr == q.answerEn) && (aEn == "" ==> q.answerEn == q.answerAr)
  {
    var qEn := FirstNonEmpty(row, QuestionEnKeys);
    var qAr := FirstNonEmpty(row, QuestionArKeys);
    var aEn := FirstNonEmpty(row, AnswerEnKeys);
    var aAr := FirstNonEmpty(row, AnswerArKeys);
    Extracted(OrElse(qEn, qAr), OrElse(qAr, qEn), OrElse(aEn, aAr), OrElse(aAr, aEn))
  }

  /** A row with only the English question column gives the same text in both languages. */
  lemma EnglishOnlyRow(text: string)
    requires text != ""
    ensures MapRow(map["Question" := text]).questionEn == text
    ensures MapRow(map["Question" := text]).questionAr == text
  {
    var row := map["Question" := text];
    assert Blank(row, "Question EN") && Blank(row, "Question_EN") && Blank(row, "question_en");
    assert QuestionEnKeys[3] == "Question" && !Blank(row, QuestionEnKeys[3]);
    assert forall k :: k in QuestionArKeys ==> Blank(row, k);
  }

  /** What the route received: no file, or a file with its size and the rows read from it. */
  datatype Upload = NoFile | File(size: nat, rows: Option<seq<Row>>)

  /** Why a request failed. */
  datatype Failure = NoFileProvided | FileTooLarge | ParseError

  /** The JSON response: the questions, or `success: false` with a status code. */
  datatype Response = Success(questions: seq<Extracted>) | Failed(status: nat, reason: Failure)

  /**
    `POST`: no file gives 400, a file over 10 MiB gives 400 before it is read, a file the
    spreadsheet reader cannot read (`rows == None`) gives 500, and otherwise one question per
    row, in row order.
  */
  function Post(upload: Upload): (r: Response)
    ensures upload.NoFile? ==> r == Failed(400, NoFileProvided)
    ensures upload.File? && upload.size > MaxFileSize ==> r == Failed(400, FileTooLarge)
    ensures upload.File? && upload.size <= MaxFileSize && upload.rows.None? ==> r == Failed(500, ParseError)
    ensures r.Success? <==> upload.File? && upload.size <= MaxFileSize && upload.rows.Some?
    ensures r.Success? ==> (|r.questions| == |upload.rows.value|
      && forall k :: 0 <= k < |r.questions| ==> r.questions[k] == MapRow(upload.rows.value[k]))
  {
    match upload
    case NoFile => Failed(400, NoFileProvided)
    case File(size, rows) =>
      if size > MaxFileSize then Failed(400, FileTooLarge)
      else if rows.None? then Failed(500, ParseError)
      else Success(Map(rows.value, MapRow))
  }
}
