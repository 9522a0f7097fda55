/**
  The data processing of the master game-analytics page (app/game-analytics/page.tsx,
  `fetchAnalytics`): per-category statistics, the per-question usage map, the question
  table sorted by use and cut to ten rows, and the overall totals with the most and least
  used category. The two backend query results are inputs; percentages and averages are
  floating point and are not part of this model.
*/
module GameAnalytics {
  import opened Common

  /** A question as the categories query embeds it: only `id` and `diamonds` are selected. */
  datatype CategoryQuestion = CategoryQuestion(id: string, diamonds: int)

  /** A category row with its embedded questions (a missing list is the empty one). */
  datatype Category = Category(id: string, nameAr: string, nameEn: string, questions: seq<CategoryQuestion>)

  /** The question a used-question entry points to; an empty `id` is a falsy one. */
  datatype Linked = Linked(id: string, categoryId: string)

  /** A `used_questions` row: when it was used and the question it embeds, if any. */
  datatype UsedEntry = UsedEntry(usedAt: string, question: Option<Linked>)

  /** The integer part of a `CategoryStats` record. */
  datatype CategoryStat = CategoryStat(id: string, nameAr: string, nameEn: string,
    totalQuestions: nat, totalDiamonds: int, questionsUsed: nat)

  /** A `QuestionStats` record. */
  datatype QuestionStat = QuestionStat(id: string, questionAr: string, questionEn: string,
    diamonds: int, categoryName: string, timesUsed: nat, lastUsed: Option<string>)

  /** The integer and text part of the overall statistics. */
  datatype Overall = Overall(totalCategories: nat, totalQuestions: nat, totalDiamonds: int,
    questionsUsed: nat, mostPopularCategory: string, leastUsedCategory: string)

  // ---------------------------------------------------------------- category statistics

  /** The entry's question belongs to the category with id `categoryId`. */
  predicate InCategory(e: UsedEntry, categoryId: string) {
    e.question.Some? && e.question.value.categoryId == categoryId
  }

  function InCategoryOf(categoryId: string): UsedEntry -> bool {
    (e: UsedEntry) => InCategory(e, categoryId)
  }

  function Diamonds(questions: seq<CategoryQuestion>): int {
    SumOf(questions, (q: CategoryQuestion) => q.diamonds)
  }

  /** One element of `categoryStatsData`. */
  function CategoryStatOf(c: Category, used: seq<UsedEntry>): CategoryStat {
    CategoryStat(c.id, c.nameAr, c.nameEn, |c.questions|, Diamonds(c.questions),
      Count(used, InCategoryOf(c.id)))
  }

  function CategoryStats(cats: seq<Category>, used: seq<UsedEntry>): seq<CategoryStat> {
    Map(cats, (c: Category) => CategoryStatOf(c, used))
  }

  function Ids(cats: seq<Category>): seq<string> {
    Map(cats, (c: Category) => c.id)
  }

  /** The entry's question belongs to one of the categories with ids `ids`. */
  function ListedIn(ids: seq<string>): UsedEntry -> bool {
    (e: UsedEntry) => e.question.Some? && e.question.value.categoryId in ids
  }

  function UsedSum(stats: seq<CategoryStat>): int {
    SumOf(stats, (s: CategoryStat) => s.questionsUsed)
  }

  /**
    `questions_used` counts entries, not distinct questions: over categories with distinct
    ids, the counts add up to the number of entries whose question is in a listed category.
  */
  lemma {:induction false} QuestionsUsedAddUp(cats: seq<Category>, used: seq<UsedEntry>)
    requires forall i, j :: 0 <= i < j < |cats| ==> cats[i].id != cats[j].id
    ensures UsedSum(CategoryStats(cats, used)) == Count(used, ListedIn(Ids(cats)))
  {
    if cats == [] {
      assert forall e :: !ListedIn(Ids(cats))(e);
      FilterExt(used, ListedIn(Ids(cats)), e => false);
      assert Filter(used, e => false) == [] by { NoneKept(used); }
    } else {
      var rest := cats[1..];
      QuestionsUsedAddUp(rest, used);
      assert CategoryStats(cats, used)[1..] == CategoryStats(rest, used);
      assert Ids(cats) == [cats[0].id] + Ids(rest);
      assert cats[0].id !in Ids(rest) by {
        forall k | 0 <= k < |rest| ensures Ids(rest)[k] != cats[0].id {
          assert rest[k] == cats[k + 1];
        }
      }
      CountOr(used, InCategoryOf(cats[0].id), ListedIn(Ids(rest)), ListedIn(Ids(cats)));
    }
  }

  lemma {:induction false} NoneKept<T>(s: seq<T>)
    ensures Filter(s, (x: T) => false) == []
  {
    if s != [] {
      NoneKept(s[1..]);
    }
  }

  // ---------------------------------------------------------------- usage map

  /** The id `questionId` the source reads from an entry; empty when it is missing. */
  function EntryId(e: UsedEntry): string {
    if e.question.Some? then e.question.value.id else ""
  }

  function HasId(id: string): UsedEntry -> bool {
    (e: UsedEntry) => EntryId(e) == id
  }

  /** Number of entries that use question `id`. */
  function Uses(used: seq<UsedEntry>, id: string): nat {
    Count(used, HasId(id))
  }

  /** The truthy ids the entries use. */
  function UsedIds(used: seq<UsedEntry>): set<string> {
    set e | e in used && EntryId(e) != "" :: EntryId(e)
  }

  /** The usage map: each used id to the number of entries that use it. */
  function Usage(used: seq<UsedEntry>): map<string, nat> {
    map id | id in UsedIds(used) :: Uses(used, id)
  }

  lemma UsedIdsPush(used: seq<UsedEntry>, e: UsedEntry)
    ensures UsedIds(used + [e]) == UsedIds(used) + (if EntryId(e) != "" then {EntryId(e)} else {})
  {
  }

  /** An id no entry uses has no uses. */
  lemma {:induction false} UnusedId(used: seq<UsedEntry>, id: string)
    requires id != "" && id !in UsedIds(used)
    ensures Uses(used, id) == 0
  {
    if used != [] {
      assert UsedIds(used[1..]) <= UsedIds(used);
      UnusedId(used[1..], id);
    }
  }

  /** `questionUsageMap.get(id) || 0`. */
  function TimesUsed(usage: map<string, nat>, id: string): nat {
    if id in usage then usage[id] else 0
  }

  lemma UsesPush(used: seq<UsedEntry>, e: UsedEntry, id: string)
    ensures Uses(used + [e], id) == Uses(used, id) + if EntryId(e) == id then 1 else 0
  {
    CountPush(used, e, HasId(id));
  }

  /** The usage map after one more entry, as the loop body builds it. */
  function Bumped(usage: map<string, nat>, e: UsedEntry): map<string, nat> {
    if EntryId(e) == "" then usage else usage[EntryId(e) := TimesUsed(usage, EntryId(e)) + 1]
  }

  lemma BumpedKeys(used: seq<UsedEntry>, e: UsedEntry)
    ensures Usage(used + [e]).Keys == Bumped(Usage(used), e).Keys
  {
    UsedIdsPush(used, e);
  }

  lemma BumpedValue(used: seq<UsedEntry>, e: UsedEntry, id: string)
    requires id in Usage(used + [e]) && id in Bumped(Usage(used), e)
    ensures Usage(used + [e])[id] == Bumped(Usage(used), e)[id]
  {
    UsesPush(used, e, id);
    assert Usage(used + [e])[id] == Uses(used + [e], id);
    if EntryId(e) != "" && id == EntryId(e) {
      if id !in UsedIds(used) {
        UnusedId(used, id);
      }
      assert TimesUsed(Usage(used), id) == Uses(used, id);
    } else {
      assert Bumped(Usage(used), e)[id] == Usage(used)[id];
    }
  }

  /** One more entry: its truthy id gets one more use, and nothing else changes. */
  lemma UsagePush(used: seq<UsedEntry>, e: UsedEntry)
    ensures Usage(used + [e]) == Bumped(Usage(used), e)
  {
    var after, expected := Usage(used + [e]), Bumped(Usage(used), e);
    BumpedKeys(used, e);
    forall id | id in after ensures after[id] == expected[id] {
      BumpedValue(used, e, id);
    }
    MapExt(after, expected);
  }

  /**
    Builds `questionUsageMap`: entries without a truthy id are skipped, and every other
    entry adds one to its id's count.
  */
  method UsageMap(used: seq<UsedEntry>) returns (m: map<string, nat>)
    ensures m == Usage(used)
  {
    m := map[];
    var i := 0;
    while i < |used|
      invariant 0 <= i <= |used|
      invariant m == Usage(used[..i])
    {
      var e := used[i];
      assert used[..i + 1] == used[..i] + [e];
      UsagePush(used[..i], e);
      var questionId := EntryId(e);
      if questionId != "" {
        m := m[questionId := (if questionId in m then m[questionId] else 0) + 1];
      }
      i := i + 1;
    }
    assert used[..i] == used;
  }

  /** The map's keys are exactly the truthy ids used, each counted at least once. */
  lemma UsageKeys(used: seq<UsedEntry>)
    ensures Usage(used).Keys == UsedIds(used)
    ensures forall id :: id in Usage(used) ==> Usage(used)[id] >= 1
  {
    forall id | id in Usage(used) ensures Usage(used)[id] >= 1 {
      var e :| e in used && EntryId(e) != "" && EntryId(e) == id;
      assert e in Filter(used, HasId(id));
    }
  }

  /** Every truthy id is looked up to its number of uses. */
  lemma TimesUsedCounts(used: seq<UsedEntry>, id: string)
    requires id != ""
    ensures TimesUsed(Usage(used), id) == Uses(used, id)
  {
    if id !in UsedIds(used) {
      UnusedId(used, id);
    }
  }

  // ---------------------------------------------------------------- question statistics

  /** `usedQuestions.find(...)`: the first entry whose question has id `id`, or `|used|`. */
  function FindUse(used: seq<UsedEntry>, id: string): (k: nat)
    ensures k <= |used|
    ensures k < |used| ==> used[k].question.Some? && used[k].question.value.id == id
    ensures forall j :: 0 <= j < k ==> !(used[j].question.Some? && used[j].question.value.id == id)
  {
    if used == [] then 0
    else if used[0].question.Some? && used[0].question.value.id == id then 0
    else 1 + FindUse(used[1..], id)
  }

  /** `lastUsedEntry?.used_at || null`. */
  function LastUsed(used: seq<UsedEntry>, id: string): Option<string> {
    var k := FindUse(used, id);
    if k < |used| && used[k].usedAt != "" then Some(used[k].usedAt) else None
  }

  /**
    One pushed record. The categories query selects only `id` and `diamonds` of each
    question, so both question texts fall back to the empty string.
  */
  function StatOf(c: Category, q: CategoryQuestion, usage: map<string, nat>, used: seq<UsedEntry>): QuestionStat {
    QuestionStat(q.id, "", "", q.diamonds, OrElse(c.nameEn, c.nameAr), TimesUsed(usage, q.id), LastUsed(used, q.id))
  }

  function CategoryRows(c: Category, usage: map<string, nat>, used: seq<UsedEntry>): seq<QuestionStat> {
    Map(c.questions, (q: CategoryQuestion) => StatOf(c, q, usage, used))
  }

  /** `questionStatsData` before the sort: the rows of every category, in category order. */
  function AllRows(cats: seq<Category>, usage: map<string, nat>, used: seq<UsedEntry>): seq<QuestionStat> {
    if cats == [] then [] else AllRows(cats[..|cats| - 1], usage, used) + CategoryRows(cats[|cats| - 1], usage, used)
  }

  /** The nested `forEach` that pushes one record per question of each category. */
  method BuildQuestionStats(cats: seq<Category>, usage: map<string, nat>, used: seq<UsedEntry>)
    returns (rows: seq<QuestionStat>)
    ensures rows == AllRows(cats, usage, used)
  {
    rows := [];
    var i := 0;
    while i < |cats|
      invariant 0 <= i <= |cats|
      invariant rows == AllRows(cats[..i], usage, used)
    {
      var c := cats[i];
      var j := 0;
      while j < |c.questions|
        invariant 0 <= j <= |c.questions|
        invariant rows == AllRows(cats[..i], usage, used) + CategoryRows(c, usage, used)[..j]
      {
        SlicePush(CategoryRows(c, usage, used), j);
        AppendAssoc(AllRows(cats[..i], usage, used), CategoryRows(c, usage, used)[..j], [StatOf(c, c.questions[j], usage, used)]);
        rows := rows + [StatOf(c, c.questions[j], usage, used)];
        j := j + 1;
      }
      assert cats[..i + 1][..i] == cats[..i];
      i := i + 1;
    }
    assert cats[..i] == cats;
  }

  function RowDiamonds(rows: seq<QuestionStat>): int {
    SumOf(rows, (r: QuestionStat) => r.diamonds)
  }

  function QuestionSum(stats: seq<CategoryStat>): int {
    SumOf(stats, (s: CategoryStat) => s.totalQuestions)
  }

  function DiamondSum(stats: seq<CategoryStat>): int {
    SumOf(stats, (s: CategoryStat) => s.totalDiamonds)
  }

  lemma {:induction false} CategoryRowsDiamonds(c: Category, qs: seq<CategoryQuestion>, usage: map<string, nat>, used: seq<UsedEntry>)
    ensures RowDiamonds(Map(qs, (q: CategoryQuestion) => StatOf(c, q, usage, used))) == Diamonds(qs)
  {
    if qs != [] {
      assert Map(qs, (q: CategoryQuestion) => StatOf(c, q, usage, used))[1..]
        == Map(qs[1..], (q: CategoryQuestion) => StatOf(c, q, usage, used));
      CategoryRowsDiamonds(c, qs[1..], usage, used);
    }
  }

  lemma CategoryStatsPush(cats: seq<Category>, used: seq<UsedEntry>)
    requires cats != []
    ensures CategoryStats(cats, used) == CategoryStats(cats[..|cats| - 1], used) + [CategoryStatOf(cats[|cats| - 1], used)]
  {
  }

  /** The question table has one row per question of every category. */
  lemma {:induction false} RowsMatchQuestionCount(cats: seq<Category>, usage: map<string, nat>, used: seq<UsedEntry>)
    ensures |AllRows(cats, usage, used)| == QuestionSum(CategoryStats(cats, used))
  {
    if cats != [] {
      var init, c := cats[..|cats| - 1], cats[|cats| - 1];
      RowsMatchQuestionCount(init, usage, used);
      CategoryStatsPush(cats, used);
      SumOfAppend(CategoryStats(init, used), [CategoryStatOf(c, used)], (s: CategoryStat) => s.totalQuestions);
    }
  }

  /** The diamonds of the question table add up to the categories' `total_diamonds`. */
  lemma {:induction false} RowsMatchDiamonds(cats: seq<Category>, usage: map<string, nat>, used: seq<UsedEntry>)
    ensures RowDiamonds(AllRows(cats, usage, used)) == DiamondSum(CategoryStats(cats, used))
  {
    if cats != [] {
      var init, c := cats[..|cats| - 1], cats[|cats| - 1];
      RowsMatchDiamonds(init, usage, used);
      CategoryStatsPush(cats, used);
      SumOfAppend(CategoryStats(init, used), [CategoryStatOf(c, used)], (s: CategoryStat) => s.totalDiamonds);
      SumOfAppend(AllRows(init, usage, used), CategoryRows(c, usage, used), (r: QuestionStat) => r.diamonds);
      CategoryRowsDiamonds(c, c.questions, usage, used);
    }
  }

  // ---------------------------------------------------------------- sort by use

  /** Ordered by `times_used`, largest first. */
  predicate Descending(rows: seq<QuestionStat>) {
    forall i, j :: 0 <= i < j < |rows| ==> rows[i].timesUsed >= rows[j].timesUsed
  }

  /** Places `x` after every row used at least as often, as a stable sort does for a later element. */
  function Insert(rows: seq<QuestionStat>, x: QuestionStat): (r: seq<QuestionStat>)
    ensures |r| == |rows| + 1
  {
    if rows == [] then [x]
    else if x.timesUsed > rows[0].timesUsed then [x] + rows
    else
      assert rows == [rows[0]] + rows[1..];
      [rows[0]] + Insert(rows[1..], x)
  }

  /** Inserting into a descending sequence keeps it descending. */
  lemma {:induction false} InsertDescending(rows: seq<QuestionStat>, x: QuestionStat)
    requires Descending(rows)
    ensures Descending(Insert(rows, x))
    ensures rows != [] ==> Insert(rows, x)[0] == if x.timesUsed > rows[0].timesUsed then x else rows[0]
  {
    if rows != [] && x.timesUsed <= rows[0].timesUsed {
      var tail := Insert(rows[1..], x);
      InsertDescending(rows[1..], x);
      assert tail == [] || tail[0].timesUsed <= rows[0].timesUsed;
      var r := [rows[0]] + tail;
      forall i, j | 0 <= i < j < |r| ensures r[i].timesUsed >= r[j].timesUsed {
        if i > 0 {
          assert r[i] == tail[i - 1] && r[j] == tail[j - 1];
        } else {
          assert r[j] == tail[j - 1];
        }
      }
    }
  }

  /**
    `questionStatsData.sort((a, b) => b.times_used - a.times_used)`: a stable sort, so the
    result is the input with each element inserted, in input order, into the sorted prefix.
  */
  function SortedByUse(rows: seq<QuestionStat>): (r: seq<QuestionStat>)
    ensures Descending(r)
    ensures |r| == |rows|
  {
    if rows == [] then []
    else
      var init, x := rows[..|rows| - 1], rows[|rows| - 1];
      assert rows == init + [x];
      InsertDescending(SortedByUse(init), x);
      Insert(SortedByUse(init), x)
  }

  lemma {:induction false} InsertPermutes(rows: seq<QuestionStat>, x: QuestionStat)
    ensures multiset(Insert(rows, x)) == multiset(rows) + multiset{x}
  {
    if rows != [] && x.timesUsed <= rows[0].timesUsed {
      InsertPermutes(rows[1..], x);
      assert rows == [rows[0]] + rows[1..];
    }
  }

  /** The sort only reorders the rows. */
  lemma {:induction false} SortPermutes(rows: seq<QuestionStat>)
    ensures multiset(SortedByUse(rows)) == multiset(rows)
  {
    if rows != [] {
      var init, x := rows[..|rows| - 1], rows[|rows| - 1];
      SortPermutes(init);
      InsertPermutes(SortedByUse(init), x);
      SplitLast(rows);
    }
  }

  function UsedTimes(n: nat): QuestionStat -> bool {
    (r: QuestionStat) => r.timesUsed == n
  }

  /** The rows used `n` times after inserting `x`: those before, then `x` if it is used `n` times. */
  lemma {:induction false} InsertKeepsTies(rows: seq<QuestionStat>, x: QuestionStat, n: nat)
    requires Descending(rows)
    ensures Filter(Insert(rows, x), UsedTimes(n)) == Filter(rows, UsedTimes(n)) + (if x.timesUsed == n then [x] else [])
  {
    if rows == [] {
      FilterSingle(x, UsedTimes(n));
    } else if x.timesUsed > rows[0].timesUsed {
      InsertFrontTies(rows, x, n);
    } else {
      assert Descending(rows[1..]);
      InsertKeepsTies(rows[1..], x, n);
      InsertLaterTies(rows, x, n);
    }
  }

  lemma InsertFrontTies(rows: seq<QuestionStat>, x: QuestionStat, n: nat)
    requires rows != [] && x.timesUsed > rows[0].timesUsed && Descending(rows)
    ensures Filter([x] + rows, UsedTimes(n)) == Filter(rows, UsedTimes(n)) + (if x.timesUsed == n then [x] else [])
  {
    FilterAppend([x], rows, UsedTimes(n));
    FilterSingle(x, UsedTimes(n));
    if x.timesUsed == n {
      UsedLess(rows, n);
    }
  }

  lemma InsertLaterTies(rows: seq<QuestionStat>, x: QuestionStat, n: nat)
    requires rows != [] && x.timesUsed <= rows[0].timesUsed
    requires Filter(Insert(rows[1..], x), UsedTimes(n)) == Filter(rows[1..], UsedTimes(n)) + (if x.timesUsed == n then [x] else [])
    ensures Filter(Insert(rows, x), UsedTimes(n)) == Filter(rows, UsedTimes(n)) + (if x.timesUsed == n then [x] else [])
  {
    var f, ins := UsedTimes(n), Insert(rows[1..], x);
    var r := [rows[0]] + ins;
    assert Insert(rows, x) == r;
    assert r[0] == rows[0] && r[1..] == ins;
    var head, later, tail := (if f(rows[0]) then [rows[0]] else []), Filter(rows[1..], f), if x.timesUsed == n then [x] else [];
    assert Filter(r, f) == head + (later + tail);
    assert Filter(rows, f) == head + later;
    AppendAssoc(head, later, tail);
  }

  lemma {:induction false} UsedLess(rows: seq<QuestionStat>, n: nat)
    requires forall k :: 0 <= k < |rows| ==> rows[k].timesUsed < n
    ensures Filter(rows, UsedTimes(n)) == []
  {
    if rows != [] {
      UsedLess(rows[1..], n);
    }
  }

  /** The sort is stable: the rows used equally often keep their relative order. */
  lemma {:induction false} SortIsStable(rows: seq<QuestionStat>, n: nat)
    ensures Filter(SortedByUse(rows), UsedTimes(n)) == Filter(rows, UsedTimes(n))
  {
    if rows != [] {
      var init, x := rows[..|rows| - 1], rows[|rows| - 1];
      SortIsStable(init, n);
      InsertKeepsTies(SortedByUse(init), x, n);
      SplitLast(rows);
      FilterPush(init, x, UsedTimes(n));
    }
  }

  lemma {:induction false} InsertSplit(p: seq<QuestionStat>, q: seq<QuestionStat>, x: QuestionStat)
    requires forall k :: 0 <= k < |p| ==> p[k].timesUsed >= x.timesUsed
    requires q == [] || x.timesUsed > q[0].timesUsed
    ensures Insert(p + q, x) == p + [x] + q
  {
    if p != [] {
      ConsSplit(p, q, x);
      InsertSplit(p[1..], q, x);
    } else {
      assert p + q == q;
    }
  }

  lemma SortedPush(s: seq<QuestionStat>, i: nat)
    requires i < |s|
    ensures SortedByUse(s[..i + 1]) == Insert(SortedByUse(s[..i]), s[i])
  {
    assert s[..i + 1][..i] == s[..i];
  }

  lemma DescendingHead(p: seq<QuestionStat>, q: seq<QuestionStat>, x: QuestionStat)
    requires Descending(p + q)
    requires p == [] || p[|p| - 1].timesUsed >= x.timesUsed
    ensures forall k :: 0 <= k < |p| ==> p[k].timesUsed >= x.timesUsed
  {
    forall k | 0 <= k < |p| ensures p[k].timesUsed >= x.timesUsed {
      assert (p + q)[k] == p[k] && (p + q)[|p| - 1] == p[|p| - 1];
    }
  }

  /**
    One step of the insertion sort: the row at `i` placed at `j`, after the sorted rows used
    at least as often and before those used less often.
  */
  lemma InsertionStep(s: seq<QuestionStat>, i: nat, before: seq<QuestionStat>, j: nat)
    requires j <= i < |s| == |before|
    requires before[..i] == SortedByUse(s[..i]) && before[i] == s[i]
    requires j == 0 || before[j - 1].timesUsed >= before[i].timesUsed
    requires j < i ==> before[j].timesUsed < before[i].timesUsed
    ensures before[..j] + [before[i]] + before[j..i] == SortedByUse(s[..i + 1])
  {
    var p, q := before[..j], before[j..i];
    SliceJoin(before, j, i);
    SortedPush(s, i);
    DescendingHead(p, q, s[i]);
    InsertSplit(p, q, s[i]);
  }

  /** The array after the shift and the write, as a sequence. */
  lemma ShiftedPlacement(before: seq<QuestionStat>, after: seq<QuestionStat>, i: nat, j: nat, x: QuestionStat)
    requires j <= i < |before| == |after|
    requires forall k :: 0 <= k < j ==> after[k] == before[k]
    requires after[j] == x
    requires forall k :: j < k <= i ==> after[k] == before[k - 1]
    ensures after[..i + 1] == before[..j] + [x] + before[j..i]
  {
  }

  /**
    One pass of the insertion sort: `a[i]` moves left past the rows used less often than
    it, which shift one place right; `j` is where it lands.
  */
  method InsertAt(a: array<QuestionStat>, i: nat) returns (j: nat)
    requires i < a.Length
    modifies a
    ensures j <= i
    ensures forall k :: 0 <= k < j ==> a[k] == old(a[k])
    ensures a[j] == old(a[i])
    ensures forall k :: j < k <= i ==> a[k] == old(a[k - 1])
    ensures j == 0 || old(a[j - 1]).timesUsed >= old(a[i]).timesUsed
    ensures j < i ==> old(a[j]).timesUsed < old(a[i]).timesUsed
    ensures forall k :: i < k < a.Length ==> a[k] == old(a[k])
  {
    var x := a[i];
    ghost var before := a[..];
    j := i;
    while j > 0 && a[j - 1].timesUsed < x.timesUsed
      invariant 0 <= j <= i
      invariant forall k :: 0 <= k < j ==> a[k] == before[k]
      invariant forall k :: j < k <= i ==> a[k] == before[k - 1]
      invariant forall k :: i < k < a.Length ==> a[k] == before[k]
      invariant j < i ==> before[j].timesUsed < x.timesUsed
    {
      a[j] := a[j - 1];
      j := j - 1;
    }
    a[j] := x;
  }

  /** The in-place insertion sort that realises `SortedByUse`. */
  method SortByUse(a: array<QuestionStat>)
    modifies a
    ensures a[..] == SortedByUse(old(a[..]))
  {
    ghost var s := a[..];
    var i := 0;
    while i < a.Length
      invariant 0 <= i <= a.Length
      invariant a[..i] == SortedByUse(s[..i])
      invariant forall k :: i <= k < a.Length ==> a[k] == s[k]
    {
      ghost var before := a[..];
      assert before[..i] == SortedByUse(s[..i]) && before[i] == s[i];
      var j := InsertAt(a, i);
      ShiftedPlacement(before, a[..], i, j, before[i]);
      InsertionStep(s, i, before, j);
      i := i + 1;
    }
    assert s[..i] == s;
  }

  /** `questionStatsData.sort(...)` on the array the rows were pushed into. */
  method SortRows(rows: seq<QuestionStat>) returns (sorted: seq<QuestionStat>)
    ensures sorted == SortedByUse(rows)
  {
    var a := new QuestionStat[|rows|](k requires 0 <= k < |rows| => rows[k]);
    assert a[..] == rows;
    SortByUse(a);
    sorted := a[..];
  }

  /** Sorting permutes the rows, so it keeps their diamond total. */
  lemma {:induction false} InsertDiamonds(rows: seq<QuestionStat>, x: QuestionStat)
    ensures RowDiamonds(Insert(rows, x)) == RowDiamonds(rows) + x.diamonds
  {
    if rows == [] {
      assert [x][1..] == [];
    } else if x.timesUsed > rows[0].timesUsed {
      assert ([x] + rows)[1..] == rows;
    } else {
      InsertDiamonds(rows[1..], x);
      assert ([rows[0]] + Insert(rows[1..], x))[1..] == Insert(rows[1..], x);
    }
  }

  lemma {:induction false} SortedDiamonds(rows: seq<QuestionStat>)
    ensures RowDiamonds(SortedByUse(rows)) == RowDiamonds(rows)
  {
    if rows != [] {
      var init, x := rows[..|rows| - 1], rows[|rows| - 1];
      SortedDiamonds(init);
      InsertDiamonds(SortedByUse(init), x);
      assert rows == init + [x];
      SumOfAppend(init, [x], (r: QuestionStat) => r.diamonds);
    }
  }

  /** `slice(0, 10)`. */
  function TopTen(rows: seq<QuestionStat>): (r: seq<QuestionStat>)
    ensures |r| == Min(10, |rows|) && r == rows[..|r|]
  {
    rows[..Min(10, |rows|)]
  }

  /** The ten rows shown are used at least as often as every row left out. */
  lemma TopTenMostUsed(rows: seq<QuestionStat>)
    ensures var sorted := SortedByUse(rows);
      forall i, j :: 0 <= i < |TopTen(sorted)| <= j < |sorted| ==> TopTen(sorted)[i].timesUsed >= sorted[j].timesUsed
  {
  }

  // ---------------------------------------------------------------- most and least used

  /**
    `reduce((prev, current) => prev.questions_used > current.questions_used ? prev : current)`:
    the index of the category the reduce ends on — a maximum, the last one on ties.
  */
  function MostPopularIndex(stats: seq<CategoryStat>): (k: nat)
    requires stats != []
    ensures k < |stats|
    ensures forall j :: 0 <= j < |stats| ==> stats[j].questionsUsed <= stats[k].questionsUsed
    ensures forall j :: k < j < |stats| ==> stats[j].questionsUsed < stats[k].questionsUsed
  {
    if |stats| == 1 then 0
    else
      var prev := MostPopularIndex(stats[..|stats| - 1]);
      assert forall j :: 0 <= j < |stats| - 1 ==> stats[..|stats| - 1][j] == stats[j];
      if stats[prev].questionsUsed > stats[|stats| - 1].questionsUsed then prev else |stats| - 1
  }

  /** The same reduce with `<`: a minimum, the last one on ties. */
  function LeastUsedIndex(stats: seq<CategoryStat>): (k: nat)
    requires stats != []
    ensures k < |stats|
    ensures forall j :: 0 <= j < |stats| ==> stats[j].questionsUsed >= stats[k].questionsUsed
    ensures forall j :: k < j < |stats| ==> stats[j].questionsUsed > stats[k].questionsUsed
  {
    if |stats| == 1 then 0
    else
      var prev := LeastUsedIndex(stats[..|stats| - 1]);
      assert forall j :: 0 <= j < |stats| - 1 ==> stats[..|stats| - 1][j] == stats[j];
      if stats[prev].questionsUsed < stats[|stats| - 1].questionsUsed then prev else |stats| - 1
  }

  /** `c?.name_en || c?.name_ar || 'N/A'`. */
  function DisplayName(s: CategoryStat): string {
    OrElse(s.nameEn, OrElse(s.nameAr, "N/A"))
  }

  /** The overall statistics of a non-empty category list. */
  function OverallOf(cats: seq<Category>, used: seq<UsedEntry>): Overall
    requires cats != []
  {
    var stats := CategoryStats(cats, used);
    var rows := SortedByUse(AllRows(cats, Usage(used), used));
    Overall(|cats|, |rows|, RowDiamonds(rows), |Usage(used)|,
      DisplayName(stats[MostPopularIndex(stats)]), DisplayName(stats[LeastUsedIndex(stats)]))
  }

  /**
    The overall totals agree with the category table: the question count and the diamond
    total are the sums of the per-category figures, and `questionsUsed` is the number of
    distinct truthy ids among the used entries.
  */
  lemma OverallMatchesCategories(cats: seq<Category>, used: seq<UsedEntry>)
    requires cats != []
    ensures OverallOf(cats, used).totalQuestions == QuestionSum(CategoryStats(cats, used))
    ensures OverallOf(cats, used).totalDiamonds == DiamondSum(CategoryStats(cats, used))
    ensures OverallOf(cats, used).questionsUsed == |UsedIds(used)|
  {
    var rows := AllRows(cats, Usage(used), used);
    RowsMatchQuestionCount(cats, Usage(used), used);
    RowsMatchDiamonds(cats, Usage(used), used);
    SortedDiamonds(rows);
    assert Usage(used).Keys == UsedIds(used);
  }

  // ---------------------------------------------------------------- the page

  /** A missing used-questions result behaves as an empty one (`?.` and `|| 0`). */
  function UsedOrEmpty(usedQuestions: Option<seq<UsedEntry>>): seq<UsedEntry> {
    usedQuestions.GetOr([])
  }

  /** The rows the page shows: every question, sorted by use, the first ten. */
  function QuestionTable(cats: seq<Category>, used: seq<UsedEntry>): seq<QuestionStat> {
    TopTen(SortedByUse(AllRows(cats, Usage(used), used)))
  }

  /**
    The three results `fetchAnalytics` computes from the categories and the used entries. The
    overall statistics are `None` when there are no categories, where the reduce over the
    empty category table throws.
  */
  method Analyze(cats: seq<Category>, used: seq<UsedEntry>)
    returns (stats: seq<CategoryStat>, table: seq<QuestionStat>, totals: Option<Overall>)
    ensures stats == CategoryStats(cats, used)
    ensures table == QuestionTable(cats, used)
    ensures totals.None? <==> cats == []
    ensures cats != [] ==> totals == Some(OverallOf(cats, used))
  {
    stats := CategoryStats(cats, used);
    var usage := UsageMap(used);
    var rows := BuildQuestionStats(cats, usage, used);
    var sorted := SortRows(rows);
    table := TopTen(sorted);
    if cats == [] {
      return stats, table, None;
    }
    var most := MostPopularIndex(stats);
    var least := LeastUsedIndex(stats);
    totals := Some(Overall(|cats|, |sorted|, RowDiamonds(sorted), |usage|,
      DisplayName(stats[most]), DisplayName(stats[least])));
  }

  /** The page's `categoryStats`, `questionStats` and `overallStats` state. */
  class AnalyticsPage {
    var categoryStats: seq<CategoryStat>
    var questionStats: seq<QuestionStat>
    var overall: Overall

    constructor()
      ensures categoryStats == [] && questionStats == []
      ensures overall == Overall(0, 0, 0, 0, "", "")
    {
      categoryStats := [];
      questionStats := [];
      overall := Overall(0, 0, 0, 0, "", "");
    }

    /**
      The processing in `fetchAnalytics` once both queries have answered. Nothing is set
      when the categories query gave no data; a missing used-questions result acts as an
      empty list. With no categories the two tables are set to empty and the reduce throws,
      so the overall statistics keep their previous value.
    */
    method FetchAnalytics(categories: Option<seq<Category>>, usedQuestions: Option<seq<UsedEntry>>)
      modifies this
      ensures categories.None? ==> categoryStats == old(categoryStats) && questionStats == old(questionStats)
      ensures categories.Some? ==> categoryStats == CategoryStats(categories.value, UsedOrEmpty(usedQuestions))
      ensures categories.Some? ==> questionStats == QuestionTable(categories.value, UsedOrEmpty(usedQuestions))
      ensures overall == if categories.Some? && categories.value != []
        then OverallOf(categories.value, UsedOrEmpty(usedQuestions)) else old(overall)
    {
      if categories.None? {
        return;
      }
      var stats, table, totals := Analyze(categories.value, UsedOrEmpty(usedQuestions));
      categoryStats, questionStats := stats, table;
      if totals.Some? {
        overall := totals.value;
      }
    }
  }
}
