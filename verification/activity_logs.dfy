/**
  The activity-log page (app/activity-logs/page.tsx): the action and resource filters, the
  twenty-per-page slicing with its footer and clamped Previous/Next buttons, and the session
  duration text of the login-log list.
*/
module ActivityLogs {
  import opened Common
  import opened JsString

  /** An activity-log row; the fields the page does not compute with are left out. */
  datatype ActivityLog = ActivityLog(id: string, adminEmail: string, action: string, resourceType: string)

  /** The select value that switches a filter off. */
  const All: string := "all"
  const PageSize: nat := 20

  /** A row passes the filters: each filter is either off or equal to the row's field. */
  predicate Matches(log: ActivityLog, action: string, resource: string) {
    (action == All || log.action == action) && (resource == All || log.resourceType == resource)
  }

  /** The first `filter` of `applyFilters`, skipped when the action filter is `'all'`. */
  function ByAction(logs: seq<ActivityLog>, action: string): seq<ActivityLog> {
    if action != All then Filter(logs, (l: ActivityLog) => l.action == action) else logs
  }

  /** The second `filter` of `applyFilters`, skipped when the resource filter is `'all'`. */
  function ByResource(logs: seq<ActivityLog>, resource: string): seq<ActivityLog> {
    if resource != All then Filter(logs, (l: ActivityLog) => l.resourceType == resource) else logs
  }

  /** `applyFilters`: the action filter, then the resource filter. */
  function ApplyFilters(logs: seq<ActivityLog>, action: string, resource: string): (filtered: seq<ActivityLog>)
    ensures filtered == Filter(logs, (l: ActivityLog) => Matches(l, action, resource))
  {
    FiltersCompose(logs, action, resource);
    ByResource(ByAction(logs, action), resource)
  }

  /** The two successive filters keep exactly the rows that match both, in order. */
  lemma FiltersCompose(logs: seq<ActivityLog>, action: string, resource: string)
    ensures ByResource(ByAction(logs, action), resource) == Filter(logs, (l: ActivityLog) => Matches(l, action, resource))
  {
    var p := (l: ActivityLog) => action == All || l.action == action;
    var q := (l: ActivityLog) => resource == All || l.resourceType == resource;
    var byAction := ByAction(logs, action);
    if action == All {
      FilterAll(logs, p);
    } else {
      FilterExt(logs, (l: ActivityLog) => l.action == action, p);
    }
    if resource == All {
      FilterAll(byAction, q);
    } else {
      FilterExt(byAction, (l: ActivityLog) => l.resourceType == resource, q);
    }
    FilterFilter(logs, p, q, (l: ActivityLog) => Matches(l, action, resource));
  }

  /** With both filters off, every log is shown, in order. */
  lemma FiltersOff(logs: seq<ActivityLog>)
    ensures ApplyFilters(logs, All, All) == logs
  {
    FilterAll(logs, (l: ActivityLog) => Matches(l, All, All));
  }

  /** `Math.ceil(n / 20)`. */
  function PageCount(n: nat): (pages: nat)
    ensures (pages - 1) * PageSize < n <= pages * PageSize || (n == 0 && pages == 0)
  {
    (n + PageSize - 1) / PageSize
  }

  /** `slice((p - 1) * 20, p * 20)`: the logs of page `p`, clamped to the list. */
  function PageItems(filtered: seq<ActivityLog>, page: nat): (items: seq<ActivityLog>)
    requires page >= 1
    ensures |items| <= PageSize
    ensures forall k :: 0 <= k < |items| ==> (page - 1) * PageSize + k < |filtered| && items[k] == filtered[(page - 1) * PageSize + k]
    ensures |items| == Max(0, Min(page * PageSize, |filtered|) - (page - 1) * PageSize)
  {
    var lo := Min((page - 1) * PageSize, |filtered|);
    var hi := Min(page * PageSize, |filtered|);
    filtered[lo..hi]
  }

  /** The footer: `Showing a to b of n`. */
  function Footer(n: nat, page: nat): (range: (int, int))
    requires page >= 1
    ensures range.0 == (page - 1) * PageSize + 1
    ensures range.1 <= n && range.1 <= page * PageSize
  {
    ((page - 1) * PageSize + 1, Min(page * PageSize, n))
  }

  /** On every page the buttons can reach, the footer counts exactly the shown logs, and there is at least one. */
  lemma FooterCountsPage(filtered: seq<ActivityLog>, page: nat)
    requires 1 <= page <= PageCount(|filtered|)
    ensures var range := Footer(|filtered|, page);
      range.1 - range.0 + 1 == |PageItems(filtered, page)| >= 1
  {
  }

  /**
    The `(m)m` or `(h)h (m)m` text of a session that lasted `minutes`: it ends in `m` and has
    an hours part exactly when the session lasted an hour or more.
  */
  function FormatDuration(minutes: nat): (r: string)
    ensures r != [] && r[|r| - 1] == 'm'
    ensures 'h' in r <==> minutes >= 60
  {
    if minutes < 60 then
      var s := NatToString(minutes);
      assert 'h' !in s by {
        assert forall k :: 0 <= k < |s| ==> IsDigit(s[k]);
      }
      s + "m"
    else
      var r := NatToString(minutes / 60) + "h " + NatToString(minutes % 60) + "m";
      assert r[|NatToString(minutes / 60)|] == 'h';
      r
  }

  /** The decimal number starting at `i` and the index just past its last digit. */
  function ReadNat(text: string, i: nat): (r: (nat, nat))
    requires i <= |text|
    ensures i <= r.1 <= |text|
  {
    var e := SkipDigits(text, i, 10);
    (DigitsValue(text[i..e], 10), e)
  }

  /** Reads a duration text back: `(d)m`, or `(d)h (d)m` with fewer than sixty minutes. */
  function ParseDuration(text: string): (minutes: Option<nat>) {
    var (h, d) := ReadNat(text, 0);
    if d == 0 || d >= |text| then None
    else if text[d] == 'm' && d + 1 == |text| then Some(h)
    else if text[d] == 'h' && d + 1 < |text| && text[d + 1] == ' ' then HoursAndMinutes(text, h, d + 2)
    else None
  }

  /** The `(d)m` tail after `(h)h `, with fewer than sixty minutes, added to `h` hours. */
  function HoursAndMinutes(text: string, h: nat, i: nat): (minutes: Option<nat>)
    requires i <= |text|
  {
    var (m, e) := ReadNat(text, i);
    if e > i && e + 1 == |text| && text[e] == 'm' && m < 60 then Some(h * 60 + m)
    else None
  }

  /** Every text reads back as its duration, so no two durations share a text. */
  lemma DurationRoundTrip(minutes: nat)
    ensures ParseDuration(FormatDuration(minutes)) == Some(minutes)
  {
    if minutes < 60 {
      MinutesRoundTrip(minutes);
    } else {
      HoursRoundTrip(minutes / 60, minutes % 60);
    }
  }

  lemma MinutesRoundTrip(minutes: nat)
    requires minutes < 60
    ensures ParseDuration(NatToString(minutes) + "m") == Some(minutes)
  {
    var a := NatToString(minutes);
    var text := a + "m";
    assert text[0..|a|] == a && text[|a|] == 'm';
    ReadsNumber(text, 0, minutes, a);
  }

  lemma HoursRoundTrip(h: nat, m: nat)
    requires m < 60
    ensures ParseDuration(NatToString(h) + "h " + NatToString(m) + "m") == Some(h * 60 + m)
  {
    var a, b := NatToString(h), NatToString(m);
    var text := a + "h " + b + "m";
    var i := |a| + 2;
    assert text[0..|a|] == a && text[|a|] == 'h' && text[|a| + 1] == ' ';
    assert text[i..i + |b|] == b && text[i + |b|] == 'm' && |text| == i + |b| + 1;
    HoursText(text, h, m, a, b);
  }

  /** The hours-and-minutes reading, stated on the parts of the text rather than on its concatenation. */
  lemma HoursText(text: string, h: nat, m: nat, a: string, b: string)
    requires m < 60 && a == NatToString(h) && b == NatToString(m)
    requires |text| == |a| + 2 + |b| + 1
    requires text[0..|a|] == a && text[|a|] == 'h' && text[|a| + 1] == ' '
    requires text[|a| + 2..|a| + 2 + |b|] == b && text[|a| + 2 + |b|] == 'm'
    ensures ParseDuration(text) == Some(h * 60 + m)
  {
    ReadsNumber(text, |a| + 2, m, b);
    ReadsNumber(text, 0, h, a);
    ParseHours(text, h, |a|);
    ParseMinutesTail(text, h, |a| + 2, m);
  }

  /** A text that starts `(h)h ` is read by the hours-and-minutes branch. */
  lemma ParseHours(text: string, h: nat, d: nat)
    requires ReadNat(text, 0) == (h, d) && 0 < d && d + 1 < |text| && text[d] == 'h' && text[d + 1] == ' '
    ensures ParseDuration(text) == HoursAndMinutes(text, h, d + 2)
  {
  }

  /** A tail `(m)m` with fewer than sixty minutes ends the text. */
  lemma ParseMinutesTail(text: string, h: nat, i: nat, m: nat)
    requires i + 1 < |text| && ReadNat(text, i) == (m, |text| - 1) && text[|text| - 1] == 'm' && m < 60
    ensures HoursAndMinutes(text, h, i) == Some(h * 60 + m)
  {
  }

  /** A rendered number followed by a non-digit is read back whole. */
  lemma ReadsNumber(text: string, i: nat, n: nat, a: string)
    requires a == NatToString(n)
    requires i + |a| < |text| && text[i..i + |a|] == a && !IsDigit(text[i + |a|])
    ensures ReadNat(text, i) == (n, i + |a|)
  {
    forall k | i <= k < i + |a|
      ensures IsDigit(text[k])
    {
      assert text[k] == a[k - i];
    }
    SkipDigitsUpTo(text, i, i + |a|);
    NatToStringValue(n);
  }

  /** A run of digits from `i` to `e` that ends at a non-digit or at the end. */
  lemma {:induction false} SkipDigitsUpTo(s: string, i: nat, e: nat)
    requires i <= e <= |s|
    requires forall k :: i <= k < e ==> IsDigit(s[k])
    requires e < |s| ==> !IsDigit(s[e])
    ensures SkipDigits(s, i, 10) == e
    decreases e - i
  {
    if i < e {
      SkipDigitsUpTo(s, i + 1, e);
    }
  }

  /** The page's state: the loaded logs, the two filters, the shown list and the current page. */
  class LogsPage {
    var logs: seq<ActivityLog>
    var filterAction: string
    var filterResource: string
    var filtered: seq<ActivityLog>
    var currentPage: nat

    /** The shown list follows the logs and filters, and the page stays between 1 and the last page. */
    predicate Valid()
      reads this
    {
      filtered == ApplyFilters(logs, filterAction, filterResource)
      && 1 <= currentPage <= Max(1, PageCount(|filtered|))
    }

    constructor ()
      ensures Valid() && logs == [] && filterAction == All && filterResource == All && currentPage == 1
    {
      logs := [];
      filterAction := All;
      filterResource := All;
      filtered := [];
      currentPage := 1;
    }

    /** The effect that runs when the logs or a filter change: refilter and go back to page 1. */
    method Refilter()
      modifies this
      ensures logs == old(logs) && filterAction == old(filterAction) && filterResource == old(filterResource)
      ensures filtered == ApplyFilters(logs, filterAction, filterResource) && currentPage == 1
      ensures Valid()
    {
      filtered := ApplyFilters(logs, filterAction, filterResource);
      currentPage := 1;
    }

    /** `setLogs` after a load, followed by the effect. */
    method SetLogs(loaded: seq<ActivityLog>)
      modifies this
      ensures logs == loaded && filterAction == old(filterAction) && filterResource == old(filterResource)
      ensures Valid() && currentPage == 1
    {
      logs := loaded;
      Refilter();
    }

    /**
      Choosing an action in the first select, followed by the effect, which runs only when the
      chosen value differs from the current one.
    */
    method SetFilterAction(action: string)
      requires Valid()
      modifies this
      ensures filterAction == action && logs == old(logs) && filterResource == old(filterResource)
      ensures Valid()
      ensures action != old(filterAction) ==> currentPage == 1
      ensures action == old(filterAction) ==> filtered == old(filtered) && currentPage == old(currentPage)
    {
      if action != filterAction {
        filterAction := action;
        Refilter();
      }
    }

    /**
      Choosing a resource type in the second select, followed by the effect, which runs only
      when the chosen value differs from the current one.
    */
    method SetFilterResource(resource: string)
      requires Valid()
      modifies this
      ensures filterResource == resource && logs == old(logs) && filterAction == old(filterAction)
      ensures Valid()
      ensures resource != old(filterResource) ==> currentPage == 1
      ensures resource == old(filterResource) ==> filtered == old(filtered) && currentPage == old(currentPage)
    {
      if resource != filterResource {
        filterResource := resource;
        Refilter();
      }
    }

    /** The Previous button: one page back, never below page 1. */
    method Previous()
      requires Valid()
      modifies this
      ensures currentPage == Max(1, old(currentPage) - 1)
      ensures logs == old(logs) && filterAction == old(filterAction) && filterResource == old(filterResource)
      ensures filtered == old(filtered) && Valid()
    {
      currentPage := Max(1, currentPage - 1);
    }

    /** The Next button, shown only when there is more than one page: one page on, never past the last. */
    method Next()
      requires Valid() && |filtered| > PageSize
      modifies this
      ensures currentPage == Min(PageCount(|filtered|), old(currentPage) + 1)
      ensures logs == old(logs) && filterAction == old(filterAction) && filterResource == old(filterResource)
      ensures filtered == old(filtered) && Valid()
    {
      currentPage := Min(PageCount(|filtered|), currentPage + 1);
    }

    /** The logs on the current page. */
    function Shown(): (items: seq<ActivityLog>)
      requires Valid()
      reads this
      ensures items == PageItems(filtered, currentPage)
      ensures filtered != [] ==> items != []
    {
      PageItems(filtered, currentPage)
    }
  }
}
