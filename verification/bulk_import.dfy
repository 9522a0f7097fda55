/**
  The CSV bulk import page (app/bulk-import/page.tsx): parsed rows are numbered, each row is
  checked and matched to a category, the rows are split into valid and invalid ones, and the
  valid rows are inserted in batches of ten. The CSV parser and the backend insert are not
  modelled; their results are inputs.
*/
module BulkImport {
  import opened Common
  import opened JsString

  /** A row as the CSV parser returns it. */
  datatype RawRow = RawRow(
    categoryName: string, questionAr: string, questionEn: string,
    answerAr: string, answerEn: string, diamonds: string)

  /** `ImportRow`: the parsed fields, the spreadsheet row number, the errors and the matched category. */
  datatype ImportRow = ImportRow(raw: RawRow, rowNumber: int, errors: seq<RowError>, categoryId: Option<string>)

  datatype Category = Category(id: string, nameAr: string, nameEn: string)

  /** The question record inserted for a valid row. */
  datatype NewQuestion = NewQuestion(
    categoryId: Option<string>, questionAr: string, questionEn: string,
    answerAr: string, answerEn: string, diamonds: Option<int>)

  const BatchSize: nat := 10

  /** The row numbering of the parsed file: row `k` is spreadsheet row `k + 2`, below the header. */
  function Number(rows: seq<RawRow>): (r: seq<ImportRow>)
    ensures |r| == |rows|
    ensures forall k :: 0 <= k < |r| ==> r[k] == ImportRow(rows[k], k + 2, [], None)
  {
    seq(|rows|, k requires 0 <= k < |rows| => ImportRow(rows[k], k + 2, [], None))
  }

  predicate NamedAs(c: Category, name: string) {
    c.nameAr == name || c.nameEn == name
  }

  /** The index of the first category either of whose names equals `name`, or -1. */
  function FindIndex(categories: seq<Category>, name: string): (k: int)
    ensures -1 <= k < |categories|
    ensures k >= 0 ==> NamedAs(categories[k], name)
    ensures forall m :: 0 <= m < |categories| && (k < 0 || m < k) ==> !NamedAs(categories[m], name)
  {
    if categories == [] then -1
    else if NamedAs(categories[0], name) then 0
    else
      var k := FindIndex(categories[1..], name);
      if k < 0 then -1 else k + 1
  }

  /** `categories.find(...)`: the first category either of whose names equals `name`. */
  function FindCategory(categories: seq<Category>, name: string): (r: Option<Category>)
    ensures r.None? <==> forall c :: c in categories ==> !NamedAs(c, name)
    ensures r.Some? ==> r.value == categories[FindIndex(categories, name)]
  {
    var k := FindIndex(categories, name);
    if k < 0 then None else Some(categories[k])
  }

  /** The diamond values a question may carry. */
  predicate AllowedDiamonds(v: Option<int>) {
    v.Some? && (v.value == 10 || v.value == 25 || v.value == 50 || v.value == 75 || v.value == 100)
  }

  /** The problems a row can have; `Message` gives the text shown for each. */
  datatype RowError =
    | CategoryRequired | QuestionArRequired | QuestionEnRequired | AnswerArRequired
    | AnswerEnRequired | DiamondsRequired | DiamondsInvalid | CategoryNotFound(name: string)

  function Message(e: RowError): string {
    match e
    case CategoryRequired => "Category name is required"
    case QuestionArRequired => "Arabic question is required"
    case QuestionEnRequired => "English question is required"
    case AnswerArRequired => "Arabic answer is required"
    case AnswerEnRequired => "English answer is required"
    case DiamondsRequired => "Diamonds value is required"
    case DiamondsInvalid => "Diamonds must be 10, 25, 50, 75, or 100"
    case CategoryNotFound(name) => "Category \"" + name + "\" not found"
  }

  /** The outcome of each check on one row. */
  datatype Checks = Checks(
    categoryBlank: bool, questionArBlank: bool, questionEnBlank: bool, answerArBlank: bool,
    answerEnBlank: bool, diamondsBlank: bool, diamondsInvalid: bool, categoryMissing: bool)

  /**
    The checks of one row. A field is blank when `trim()` leaves nothing, that is when it is
    all white space (see `BlankIsEmptyTrim`).
  */
  function RowChecks(raw: RawRow, categories: seq<Category>): Checks {
    Checks(AllSpace(raw.categoryName), AllSpace(raw.questionAr), AllSpace(raw.questionEn),
           AllSpace(raw.answerAr), AllSpace(raw.answerEn), AllSpace(raw.diamonds),
           !AllowedDiamonds(ParseInt(raw.diamonds)),
           FindCategory(categories, Trim(raw.categoryName)).None?)
  }

  /** Every error a row can have, in the order the checks run. */
  function AllErrors(categoryName: string): seq<RowError> {
    [CategoryRequired, QuestionArRequired, QuestionEnRequired, AnswerArRequired,
     AnswerEnRequired, DiamondsRequired, DiamondsInvalid, CategoryNotFound(categoryName)]
  }

  /** The position of each error in `AllErrors`: the order in which the checks push them. */
  function Rank(e: RowError): int {
    match e
    case CategoryRequired => 0
    case QuestionArRequired => 1
    case QuestionEnRequired => 2
    case AnswerArRequired => 3
    case AnswerEnRequired => 4
    case DiamondsRequired => 5
    case DiamondsInvalid => 6
    case CategoryNotFound(_) => 7
  }

  /** Whether the check behind error `e` failed. */
  predicate Failed(c: Checks, e: RowError) {
    match e
    case CategoryRequired => c.categoryBlank
    case QuestionArRequired => c.questionArBlank
    case QuestionEnRequired => c.questionEnBlank
    case AnswerArRequired => c.answerArBlank
    case AnswerEnRequired => c.answerEnBlank
    case DiamondsRequired => c.diamondsBlank
    case DiamondsInvalid => c.diamondsInvalid
    case CategoryNotFound(_) => c.categoryMissing
  }

  /**
    The error list for the given check outcomes: an error is listed exactly when its check
    failed, each at most once and in the order the checks run.
  */
  function Collect(c: Checks, categoryName: string): (errors: seq<RowError>)
    ensures forall e :: e in errors <==> e in AllErrors(categoryName) && Failed(c, e)
    ensures forall i, j :: 0 <= i < j < |errors| ==> Rank(errors[i]) < Rank(errors[j])
    ensures |errors| <= 8
  {
    var all := AllErrors(categoryName);
    var failed := (e: RowError) => Failed(c, e);
    FilterRising(all, failed, Rank);
    Filter(all, failed)
  }

  /** Each error of `Collect` named: listed exactly when its own check failed. */
  lemma CollectFields(c: Checks, categoryName: string)
    ensures var errors := Collect(c, categoryName);
      && (CategoryRequired in errors <==> c.categoryBlank)
      && (QuestionArRequired in errors <==> c.questionArBlank)
      && (QuestionEnRequired in errors <==> c.questionEnBlank)
      && (AnswerArRequired in errors <==> c.answerArBlank)
      && (AnswerEnRequired in errors <==> c.answerEnBlank)
      && (DiamondsRequired in errors <==> c.diamondsBlank)
      && (DiamondsInvalid in errors <==> c.diamondsInvalid)
      && (CategoryNotFound(categoryName) in errors <==> c.categoryMissing)
  {
    var all := AllErrors(categoryName);
    assert all[0] == CategoryRequired && all[1] == QuestionArRequired && all[2] == QuestionEnRequired;
    assert all[3] == AnswerArRequired && all[4] == AnswerEnRequired && all[5] == DiamondsRequired;
    assert all[6] == DiamondsInvalid && all[7] == CategoryNotFound(categoryName);
  }

  /** `Collect` lists nothing exactly when every check passed. */
  lemma CollectEmpty(c: Checks, categoryName: string)
    ensures Collect(c, categoryName) == [] <==>
      !(c.categoryBlank || c.questionArBlank || c.questionEnBlank || c.answerArBlank
        || c.answerEnBlank || c.diamondsBlank || c.diamondsInvalid || c.categoryMissing)
  {
    var errors := Collect(c, categoryName);
    CollectFields(c, categoryName);
    if errors != [] {
      var e := errors[0];
      assert e in AllErrors(categoryName) && Failed(c, e);
    }
  }

  /** `!x?.trim()` holds exactly for the all-white-space strings. */
  lemma BlankIsEmptyTrim(x: string)
    ensures Trim(x) == [] <==> AllSpace(x)
  {
  }

  /** A row passes every check. */
  predicate RowOk(raw: RawRow, categories: seq<Category>) {
    && !AllSpace(raw.categoryName) && !AllSpace(raw.questionAr) && !AllSpace(raw.questionEn)
    && !AllSpace(raw.answerAr) && !AllSpace(raw.answerEn) && !AllSpace(raw.diamonds)
    && AllowedDiamonds(ParseInt(raw.diamonds))
    && FindCategory(categories, Trim(raw.categoryName)).Some?
  }

  /**
    The errors of one row, in the order they are found: one per blank required field, one for
    a diamonds value outside the allowed set, and one, quoting the name as given, when no
    category has the trimmed name.
  */
  function RowErrors(raw: RawRow, categories: seq<Category>): (errors: seq<RowError>)
    ensures errors == [] <==> RowOk(raw, categories)
    ensures CategoryRequired in errors <==> AllSpace(raw.categoryName)
    ensures QuestionArRequired in errors <==> AllSpace(raw.questionAr)
    ensures QuestionEnRequired in errors <==> AllSpace(raw.questionEn)
    ensures AnswerArRequired in errors <==> AllSpace(raw.answerAr)
    ensures AnswerEnRequired in errors <==> AllSpace(raw.answerEn)
    ensures DiamondsRequired in errors <==> AllSpace(raw.diamonds)
    ensures DiamondsInvalid in errors <==> !AllowedDiamonds(ParseInt(raw.diamonds))
    ensures CategoryNotFound(raw.categoryName) in errors <==> FindCategory(categories, Trim(raw.categoryName)).None?
    ensures forall e :: e in errors ==> e in AllErrors(raw.categoryName)
    ensures forall i, j :: 0 <= i < j < |errors| ==> Rank(errors[i]) < Rank(errors[j])
    ensures |errors| <= 8
  {
    CollectFields(RowChecks(raw, categories), raw.categoryName);
    CollectEmpty(RowChecks(raw, categories), raw.categoryName);
    Collect(RowChecks(raw, categories), raw.categoryName)
  }

  /** One row after checking: its errors set and, when a category matched, its id. */
  function Check(row: ImportRow, categories: seq<Category>): (r: ImportRow)
    ensures r.raw == row.raw && r.rowNumber == row.rowNumber
    ensures r.errors == RowErrors(row.raw, categories)
    ensures r.errors == [] ==> r.categoryId.Some?
    ensures r.errors == [] <==> RowOk(row.raw, categories)
    ensures var found := FindCategory(categories, Trim(row.raw.categoryName));
      && (found.Some? ==> r.categoryId == Some(found.value.id) && found.value == categories[FindIndex(categories, Trim(row.raw.categoryName))])
      && (found.None? ==> r.categoryId == row.categoryId && CategoryNotFound(row.raw.categoryName) in r.errors)
  {
    var found := FindCategory(categories, Trim(row.raw.categoryName));
    row.(errors := RowErrors(row.raw, categories),
         categoryId := if found.Some? then Some(found.value.id) else row.categoryId)
  }

  predicate IsValidRow(row: ImportRow) { row.errors == [] }
  predicate IsInvalidRow(row: ImportRow) { row.errors != [] }

  /** Every row checked, in order. */
  function CheckAll(rows: seq<ImportRow>, categories: seq<Category>): (r: seq<ImportRow>)
    ensures |r| == |rows|
  {
    if rows == [] then [] else CheckAll(rows[..|rows| - 1], categories) + [Check(rows[|rows| - 1], categories)]
  }

  /**
    `validateData`: checks each row in turn and appends it to the valid or the invalid list;
    the rows themselves come back checked.
  */
  method ValidateData(data: seq<ImportRow>, categories: seq<Category>)
    returns (valid: seq<ImportRow>, invalid: seq<ImportRow>, checked: seq<ImportRow>)
    ensures checked == CheckAll(data, categories)
    ensures valid == Filter(checked, IsValidRow)
    ensures invalid == Filter(checked, IsInvalidRow)
  {
    valid, invalid, checked := [], [], [];
    var k := 0;
    while k < |data|
      invariant 0 <= k <= |data|
      invariant checked == CheckAll(data[..k], categories)
      invariant valid == Filter(checked, IsValidRow)
      invariant invalid == Filter(checked, IsInvalidRow)
    {
      var row := Check(data[k], categories);
      CheckAllStep(data, k, categories);
      FilterPush(checked, row, IsValidRow);
      FilterPush(checked, row, IsInvalidRow);
      checked := checked + [row];
      if row.errors == [] {
        valid := valid + [row];
      } else {
        invalid := invalid + [row];
      }
      k := k + 1;
    }
    assert data[..k] == data;
  }

  lemma CheckAllStep(data: seq<ImportRow>, k: nat, categories: seq<Category>)
    requires k < |data|
    ensures CheckAll(data[..k + 1], categories) == CheckAll(data[..k], categories) + [Check(data[k], categories)]
  {
    assert data[..k + 1][..k] == data[..k];
  }

  lemma {:induction false} FilterSplit<T>(s: seq<T>, p: T -> bool, q: T -> bool)
    requires forall x :: p(x) <==> !q(x)
    ensures |Filter(s, p)| + |Filter(s, q)| == |s|
  {
    if s != [] {
      FilterSplit(s[1..], p, q);
    }
  }

  /** Every checked row is valid exactly when it passes every check, and then has its category. */
  lemma {:induction false} CheckAllSound(rows: seq<ImportRow>, categories: seq<Category>)
    ensures forall r :: r in CheckAll(rows, categories) ==>
      (r.errors == [] <==> RowOk(r.raw, categories)) && (r.errors == [] ==> r.categoryId.Some?)
  {
    if rows != [] {
      CheckAllSound(rows[..|rows| - 1], categories);
    }
  }

  /**
    The two lists split the checked rows: every row lands in exactly one, a row is valid
    exactly when it passes every check, and every valid row has its category.
  */
  lemma ValidateDataPartition(data: seq<ImportRow>, categories: seq<Category>)
    ensures var checked := CheckAll(data, categories);
      && |Filter(checked, IsValidRow)| + |Filter(checked, IsInvalidRow)| == |data|
      && (forall r :: r in Filter(checked, IsValidRow) ==> RowOk(r.raw, categories) && r.categoryId.Some?)
      && (forall r :: r in Filter(checked, IsInvalidRow) ==> !RowOk(r.raw, categories))
  {
    FilterSplit(CheckAll(data, categories), IsValidRow, IsInvalidRow);
    CheckAllSound(data, categories);
  }

  /** A blank diamonds cell is reported twice: as missing and as not an allowed value. */
  lemma BlankDiamondsTwoErrors(raw: RawRow, categories: seq<Category>)
    requires AllSpace(raw.diamonds)
    ensures DiamondsRequired in RowErrors(raw, categories) && DiamondsInvalid in RowErrors(raw, categories)
  {
  }

  // ---- handleImport ----

  /** `slice(i, i + 10)` for `i = 0, 10, 20, ...`: the consecutive batches of at most `n`. */
  function Batches<T>(s: seq<T>, n: nat): (r: seq<seq<T>>)
    requires n > 0
    ensures forall b :: b in r ==> 0 < |b| <= n
    decreases |s|
  {
    if s == [] then []
    else if |s| <= n then [s]
    else [s[..n]] + Batches(s[n..], n)
  }

  /** The batches cover the rows exactly once, in order. */
  lemma {:induction false} BatchesFlatten<T>(s: seq<T>, n: nat)
    requires n > 0
    ensures Flatten(Batches(s, n)) == s
    decreases |s|
  {
    if s != [] && |s| > n {
      var rest := Batches(s[n..], n);
      BatchesFlatten(s[n..], n);
      assert ([s[..n]] + rest)[1..] == rest;
      assert s[..n] + s[n..] == s;
    }
  }

  /** The record inserted for a row: its category id, trimmed texts and parsed diamonds. */
  function ToQuestion(row: ImportRow): NewQuestion {
    NewQuestion(row.categoryId, Trim(row.raw.questionAr), Trim(row.raw.questionEn),
                Trim(row.raw.answerAr), Trim(row.raw.answerEn), ParseInt(row.raw.diamonds))
  }

  /**
    `handleImport`: inserts the valid rows ten at a time. `failAt` is the index of the first
    batch whose insert reports an error, if any; the loop stops there. Returns the inserts
    attempted, the `imported` count and whether every insert succeeded.
  */
  method HandleImport(validRows: seq<ImportRow>, failAt: Option<nat>)
    returns (inserts: seq<seq<NewQuestion>>, imported: nat, ok: bool)
    ensures ok <==> failAt.None? || failAt.value >= |Batches(Map(validRows, ToQuestion), BatchSize)|
    ensures ok ==> inserts == Batches(Map(validRows, ToQuestion), BatchSize) && imported == |validRows|
    ensures !ok ==> |inserts| == failAt.value + 1 && imported == BatchSize * failAt.value
    ensures inserts == Batches(Map(validRows, ToQuestion), BatchSize)[..|inserts|]
  {
    inserts, imported, ok := [], 0, true;
    if |validRows| == 0 {
      return;
    }
    inserts, imported, ok := InsertInBatches(validRows, ToQuestion, failAt);
  }

  /**
    The loop of `handleImport`, for any row conversion `convert`: each batch `rows[i..i + 10]` is converted and inserted; the insert numbered `failAt` fails and ends it.
  */
  method InsertInBatches<T, U>(rows: seq<T>, convert: T -> U, failAt: Option<nat>)
    returns (inserts: seq<seq<U>>, imported: nat, ok: bool)
    ensures ok <==> failAt.None? || failAt.value >= |Batches(Map(rows, convert), BatchSize)|
    ensures ok ==> inserts == Batches(Map(rows, convert), BatchSize) && imported == |rows|
    ensures !ok ==> |inserts| == failAt.value + 1 && imported == BatchSize * failAt.value
    ensures inserts == Batches(Map(rows, convert), BatchSize)[..|inserts|]
  {
    inserts, imported, ok := [], 0, true;
    ghost var qs := Map(rows, convert);
    ghost var all := Batches(qs, BatchSize);
    var i := 0;
    while i < |rows|
      invariant 0 <= i <= |rows|
      invariant i == |rows| || i == BatchSize * |inserts|
      invariant imported == i
      invariant failAt.Some? ==> failAt.value >= |inserts|
      invariant |inserts| <= |all| && inserts == all[..|inserts|]
      invariant Batches(qs[i..], BatchSize) == all[|inserts|..]
      decreases |rows| - i
    {
      var j := Min(i + BatchSize, |rows|);
      var batch := rows[i..j];
      var questions := Map(batch, convert);
      MapSlice(rows, convert, i, j);
      NextBatch(qs, all, i, |inserts|);
      inserts := inserts + [questions];
      if failAt.Some? && failAt.value == |inserts| - 1 {
        ok := false;
        return;
      }
      imported := imported + |batch|;
      i := j;
    }
    assert qs[i..] == [];
  }

  /** The batch that follows the `b` batches cut before index `i`, and what comes after it. */
  lemma NextBatch<U>(qs: seq<U>, all: seq<seq<U>>, i: nat, b: nat)
    requires i < |qs| && b <= |all|
    requires Batches(qs[i..], BatchSize) == all[b..]
    ensures b < |all| && all[b] == qs[i..Min(i + BatchSize, |qs|)]
    ensures Batches(qs[Min(i + BatchSize, |qs|)..], BatchSize) == all[b + 1..]
    ensures all[..b + 1] == all[..b] + [all[b]]
  {
    BatchesAdvance(qs, i, BatchSize);
    assert all[b..][1..] == all[b + 1..];
  }

  /** Cutting the next batch off the rows that start at `i`. */
  lemma BatchesAdvance<T>(s: seq<T>, i: nat, n: nat)
    requires n > 0 && i < |s|
    ensures Batches(s[i..], n) == [s[i..Min(i + n, |s|)]] + Batches(s[Min(i + n, |s|)..], n)
  {
    BatchesStep(s[i..], n);
    assert s[i..][..Min(n, |s| - i)] == s[i..Min(i + n, |s|)];
    assert s[i..][Min(n, |s| - i)..] == s[Min(i + n, |s|)..];
  }

  lemma BatchesStep<T>(s: seq<T>, n: nat)
    requires n > 0 && s != []
    ensures Batches(s, n) == [s[..Min(n, |s|)]] + Batches(s[Min(n, |s|)..], n)
  {
    if |s| <= n {
      assert s[..|s|] == s && s[|s|..] == [];
    }
  }
}
