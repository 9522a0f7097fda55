/**
  The master dashboard's import page (app/master-dashboard/bulk-import/page.tsx): file-type
  classification, the mapping of sheet rows to editable questions, the edits applied to that
  list, and the filter that decides what is imported.
*/
module MasterBulkImport {
  import opened Common
  import opened JsString
  import ParseExcel

  datatype FileKind = Pdf | Excel

  /** A question being edited; `id` is `temp-<row index>`. */
  datatype ParsedQuestion = ParsedQuestion(
    id: string, questionEn: string, questionAr: string, answerEn: string, answerAr: string,
    categoryId: string, diamonds: int)

  /** The page state the handlers change. */
  datatype Page = Page(file: Option<string>, fileType: Option<FileKind>, questions: seq<ParsedQuestion>)

  // ---- handleFileChange ----

  /** Index just past the last `.` of `name`, or 0 when it has none. */
  function AfterLastDot(name: string): (i: nat)
    ensures i <= |name|
    ensures i > 0 ==> name[i - 1] == '.'
    ensures forall k :: i <= k < |name| ==> name[k] != '.'
    decreases |name|
  {
    if name == [] then 0
    else if name[|name| - 1] == '.' then |name|
    else AfterLastDot(name[..|name| - 1])
  }

  /** `name.split(".").pop().toLowerCase()`: the text after the last dot, or all of it. */
  function Extension(name: string): (ext: string)
    ensures |ext| <= |name| && '.' !in ext
  {
    LowerStr(name[AfterLastDot(name)..])
  }

  function Classify(ext: string): Option<FileKind> {
    if ext == "pdf" then Some(Pdf)
    else if ext == "xlsx" || ext == "xls" || ext == "csv" then Some(Excel)
    else None
  }

  /**
    `handleFileChange`: the chosen file is kept when its extension is known, with the matching
    type; otherwise the file is cleared, and the type chosen earlier stays as it was.
  */
  function HandleFileChange(p: Page, name: string): (r: Page)
    ensures r.questions == p.questions
    ensures Classify(Extension(name)).Some? ==> r.file == Some(name) && r.fileType == Classify(Extension(name))
    ensures Classify(Extension(name)).None? ==> r.file == None && r.fileType == p.fileType
  {
    match Classify(Extension(name))
    case Some(kind) => p.(file := Some(name), fileType := Some(kind))
    case None => p.(file := None)
  }

  /** Whatever precedes the last dot, the extension is the lower-cased text after it. */
  lemma {:induction false} ExtensionAfterLastDot(stem: string, ext: string)
    requires '.' !in ext
    ensures Extension(stem + "." + ext) == LowerStr(ext)
    decreases |ext|
  {
    var name := stem + "." + ext;
    if ext == [] {
      assert name[|name| - 1] == '.';
    } else {
      ExtensionAfterLastDot(stem, ext[..|ext| - 1]);
      assert name[..|name| - 1] == stem + "." + ext[..|ext| - 1];
      assert name[|name| - 1] == ext[|ext| - 1];
    }
    assert name[|stem| + 1..] == ext;
  }

  /** Upper-case extensions are recognised, and only the part after the last dot counts. */
  lemma ClassifyExamples()
    ensures Classify(Extension("Quiz.Final" + "." + "XLSX")) == Some(Excel)
    ensures Classify(Extension("notes.pdf" + "." + "exe")).None?
  {
    ExtensionAfterLastDot("Quiz.Final", "XLSX");
    assert LowerStr("XLSX") == "xlsx";
    ExtensionAfterLastDot("notes.pdf", "exe");
    assert LowerStr("exe") == "exe";
  }

  // ---- handleParse ----

  /** One sheet row at index `index`, with the same column fallbacks as the upload route. */
  function ToParsed(row: ParseExcel.Row, index: nat): (q: ParsedQuestion)
    ensures q.id == "temp-" + NatToString(index)
    ensures q.categoryId == "" && q.diamonds == 10
    ensures var e := ParseExcel.MapRow(row);
      q.questionEn == e.questionEn && q.questionAr == e.questionAr
      && q.answerEn == e.answerEn && q.answerAr == e.answerAr
  {
    var e := ParseExcel.MapRow(row);
    ParsedQuestion("temp-" + NatToString(index), e.questionEn, e.questionAr, e.answerEn, e.answerAr, "", 10)
  }

  /** `rows.map((row, index) => ...)`: the question of each row, numbered by its index. */
  function ToParsedAll(rows: seq<ParseExcel.Row>): (qs: seq<ParsedQuestion>)
    ensures |qs| == |rows|
    ensures forall k :: 0 <= k < |rows| ==> qs[k] == ToParsed(rows[k], k)
  {
    seq(|rows|, k requires 0 <= k < |rows| => ToParsed(rows[k], k))
  }

  /**
    `handleParse`: nothing happens without a file and a type, or for a PDF, or when the
    spreadsheet cannot be read (`rows == None`); otherwise the list is replaced by one
    question per row.
  */
  function HandleParse(p: Page, rows: Option<seq<ParseExcel.Row>>): (r: Page)
    ensures r.file == p.file && r.fileType == p.fileType
    ensures p.file.None? || p.fileType != Some(Excel) || rows.None? ==> r == p
    ensures p.file.Some? && p.fileType == Some(Excel) && rows.Some? ==>
      r.questions == ToParsedAll(rows.value)
  {
    if p.file.None? || p.fileType.None? then p
    else if p.fileType.value == Pdf then p
    else if rows.None? then p
    else
      assert p.fileType.value == Excel;
      p.(questions := ToParsedAll(rows.value))
  }

  /** Different row indices give different ids: the decimal rendering reads back. */
  lemma TempIdsDistinct(i: nat, j: nat)
    requires i != j
    ensures "temp-" + NatToString(i) != "temp-" + NatToString(j)
  {
    NatToStringValue(i);
    NatToStringValue(j);
    var a, b := "temp-" + NatToString(i), "temp-" + NatToString(j);
    assert a[5..] == NatToString(i) && b[5..] == NatToString(j);
  }

  /** Every parsed list has distinct ids. */
  lemma ParsedIdsDistinct(rows: seq<ParseExcel.Row>)
    ensures var qs := ToParsedAll(rows);
      forall a, b :: 0 <= a < b < |qs| ==> qs[a].id != qs[b].id
  {
    var qs := ToParsedAll(rows);
    forall a, b | 0 <= a < b < |qs|
      ensures qs[a].id != qs[b].id
    {
      TempIdsDistinct(a, b);
    }
  }

  // ---- updateQuestion and deleteQuestion ----

  datatype TextField = QuestionEn | QuestionAr | AnswerEn | AnswerAr | CategoryId

  /** What an editor control writes: a text field, or the diamonds picker's parsed value. */
  datatype Edit = SetText(field: TextField, text: string) | SetDiamonds(amount: int)

  /** `{...q, [field]: value}`. */
  function Apply(q: ParsedQuestion, e: Edit): (r: ParsedQuestion)
    ensures r.id == q.id
    ensures e.SetDiamonds? ==> r == q.(diamonds := e.amount)
    ensures e.SetText? ==> r.diamonds == q.diamonds
    ensures e.SetText? && e.field == QuestionEn ==> r == q.(questionEn := e.text)
    ensures e.SetText? && e.field == QuestionAr ==> r == q.(questionAr := e.text)
    ensures e.SetText? && e.field == AnswerEn ==> r == q.(answerEn := e.text)
    ensures e.SetText? && e.field == AnswerAr ==> r == q.(answerAr := e.text)
    ensures e.SetText? && e.field == CategoryId ==> r == q.(categoryId := e.text)
  {
    match e
    case SetDiamonds(v) => q.(diamonds := v)
    case SetText(f, v) =>
      match f
      case QuestionEn => q.(questionEn := v)
      case QuestionAr => q.(questionAr := v)
      case AnswerEn => q.(answerEn := v)
      case AnswerAr => q.(answerAr := v)
      case CategoryId => q.(categoryId := v)
  }

  /** `updateQuestion`: the entries with that id get the edit; every other entry stays. */
  function UpdateQuestion(qs: seq<ParsedQuestion>, id: string, e: Edit): (r: seq<ParsedQuestion>)
    ensures |r| == |qs|
    ensures forall k :: 0 <= k < |qs| ==> r[k].id == qs[k].id
    ensures forall k :: 0 <= k < |qs| && qs[k].id != id ==> r[k] == qs[k]
    ensures forall k :: 0 <= k < |qs| && qs[k].id == id ==> r[k] == Apply(qs[k], e)
  {
    Map(qs, (q: ParsedQuestion) => if q.id == id then Apply(q, e) else q)
  }

  /** Writing the same value twice is writing it once. */
  lemma UpdateIdempotent(qs: seq<ParsedQuestion>, id: string, e: Edit)
    ensures UpdateQuestion(UpdateQuestion(qs, id, e), id, e) == UpdateQuestion(qs, id, e)
  {
    var once := UpdateQuestion(qs, id, e);
    var twice := UpdateQuestion(once, id, e);
    forall k | 0 <= k < |qs|
      ensures twice[k] == once[k]
    {
      if qs[k].id == id {
        match e
        case SetDiamonds(_) =>
        case SetText(f, _) => match f { case _ => }
      }
    }
  }

  /** `deleteQuestion`: exactly the entries with that id go, the rest keep their order. */
  function DeleteQuestion(qs: seq<ParsedQuestion>, id: string): (r: seq<ParsedQuestion>)
    ensures forall q :: q in r <==> q in qs && q.id != id
    ensures |r| <= |qs|
  {
    Filter(qs, (q: ParsedQuestion) => q.id != id)
  }

  /**
    Deleting works entry by entry: on a list cut in two it deletes from each part and keeps
    the parts in order, so the surviving entries keep their order and their repetitions.
  */
  lemma DeleteAppend(a: seq<ParsedQuestion>, b: seq<ParsedQuestion>, id: string)
    ensures DeleteQuestion(a + b, id) == DeleteQuestion(a, id) + DeleteQuestion(b, id)
  {
    FilterAppend(a, b, (q: ParsedQuestion) => q.id != id);
  }

  /** A single entry survives exactly when it has another id. */
  lemma DeleteOne(q: ParsedQuestion, id: string)
    ensures DeleteQuestion([q], id) == if q.id != id then [q] else []
  {
    FilterSingle(q, (q: ParsedQuestion) => q.id != id);
  }

  /** Deleting after editing the same id leaves what deleting alone leaves. */
  lemma {:induction false} DeleteAfterUpdate(qs: seq<ParsedQuestion>, id: string, e: Edit)
    ensures DeleteQuestion(UpdateQuestion(qs, id, e), id) == DeleteQuestion(qs, id)
  {
    if qs != [] {
      var u := UpdateQuestion(qs, id, e);
      assert u[1..] == UpdateQuestion(qs[1..], id, e);
      DeleteAfterUpdate(qs[1..], id, e);
    }
  }

  /** Deleting an id that is not in the list changes nothing. */
  lemma DeleteAbsent(qs: seq<ParsedQuestion>, id: string)
    requires forall k :: 0 <= k < |qs| ==> qs[k].id != id
    ensures DeleteQuestion(qs, id) == qs
  {
    FilterAll(qs, (q: ParsedQuestion) => q.id != id);
  }

  // ---- handleBulkImport ----

  /** The row sent to the questions table. */
  datatype NewQuestion = NewQuestion(
    categoryId: string, questionEn: string, questionAr: string, answerEn: string, answerAr: string,
    diamonds: int)

  predicate Importable(q: ParsedQuestion) {
    q.categoryId != "" && q.questionEn != "" && q.answerEn != ""
  }

  function ToNew(q: ParsedQuestion): NewQuestion {
    NewQuestion(q.categoryId, q.questionEn, q.questionAr, q.answerEn, q.answerAr, q.diamonds)
  }

  /**
    `handleBulkImport`: only questions with a category, an English question and an English
    answer are sent, as one insert; with none nothing is sent. After a successful insert the
    list and the file are cleared; after a failed one the page stays as it was.
  */
  function HandleBulkImport(p: Page, insertOk: bool): (r: (Page, Option<seq<NewQuestion>>))
    ensures var sent := r.1;
      && (sent.Some? <==> exists q :: q in p.questions && Importable(q))
      && (sent.Some? ==> sent.value == Map(Filter(p.questions, Importable), ToNew))
    ensures r.1.None? || !insertOk ==> r.0 == p
    ensures r.1.Some? && insertOk ==> r.0 == p.(questions := [], file := None)
  {
    var valid := Filter(p.questions, Importable);
    if valid == [] then
      assert forall q :: q in p.questions && Importable(q) ==> q in valid;
      (p, None)
    else
      assert valid[0] in valid;
      (if insertOk then p.(questions := [], file := None) else p, Some(Map(valid, ToNew)))
  }

  /** Every sent row has a category id, an English question and an English answer. */
  lemma SentRowsComplete(p: Page, insertOk: bool)
    ensures var sent := HandleBulkImport(p, insertOk).1;
      sent.Some? ==> forall k :: 0 <= k < |sent.value| ==>
        sent.value[k].categoryId != "" && sent.value[k].questionEn != "" && sent.value[k].answerEn != ""
  {
    var valid := Filter(p.questions, Importable);
    forall k | 0 <= k < |valid|
      ensures Importable(valid[k])
    {
      assert valid[k] in valid;
    }
  }

  /** A freshly parsed list has no category ids, so nothing in it can be imported yet. */
  lemma FreshListNotImportable(rows: seq<ParseExcel.Row>, insertOk: bool)
    ensures var p := Page(Some("q.xlsx"), Some(Excel), ToParsedAll(rows));
      HandleBulkImport(p, insertOk).1.None?
  {
  }
}
