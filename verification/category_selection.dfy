/**
  The category draft (app/category-selection/page.tsx): two teams take turns picking three
  categories each, with no category picked twice; a team may drop one of its own picks
  without losing its turn.
*/
module CategorySelection {
  import opened Common
  import opened JsString
  import Sanitize
  import TeamSetup

  const PicksPerTeam: nat := 3
  const TotalPicks: nat := 6

  /** The draft state: each team's picks, in order, and whose turn it is (1 or 2). */
  datatype Draft = Draft(team1: seq<string>, team2: seq<string>, currentTeam: int)

  function Current(d: Draft): seq<string> {
    if d.currentTeam == 1 then d.team1 else d.team2
  }

  function Other(d: Draft): seq<string> {
    if d.currentTeam == 1 then d.team2 else d.team1
  }

  function WithCurrent(d: Draft, picks: seq<string>): Draft {
    if d.currentTeam == 1 then d.(team1 := picks) else d.(team2 := picks)
  }

  predicate Distinct(s: seq<string>) {
    forall i, j :: 0 <= i < j < |s| ==> s[i] != s[j]
  }

  /** Disjoint, duplicate-free picks of at most three each, and a valid turn. */
  predicate Valid(d: Draft) {
    && (d.currentTeam == 1 || d.currentTeam == 2)
    && |d.team1| <= PicksPerTeam && |d.team2| <= PicksPerTeam
    && Distinct(d.team1) && Distinct(d.team2)
    && forall x :: x in d.team1 ==> x !in d.team2
  }

  const Start: Draft := Draft([], [], 1)

  /** The names shown when none was stored. */
  const Team1Default: string := "Team 1"
  const Team2Default: string := "Team 2"

  /** The draft starts with no picks and team 1 to play. */
  lemma StartIsValid(d: Draft)
    requires d == Start
    ensures Valid(d)
  {
  }

  /**
    `handleCategorySelect`: a category of the other team is ignored; one of the current
    team's own is dropped, keeping the turn; a new one is added while the team has fewer than
    three, and the turn passes unless all six picks are then made.
  */
  function Select(d: Draft, id: string): (r: Draft)
    ensures id in Other(d) ==> r == d
    ensures id !in Other(d) && id in Current(d) ==>
      r == WithCurrent(d, Filter(Current(d), x => x != id))
    ensures id !in Other(d) && id !in Current(d) && |Current(d)| >= PicksPerTeam ==> r == d
    ensures id !in Other(d) && id !in Current(d) && |Current(d)| < PicksPerTeam ==>
      && r.(currentTeam := d.currentTeam) == WithCurrent(d, Current(d) + [id])
      && (r.currentTeam != d.currentTeam <==> |Current(d)| + 1 + |Other(d)| < TotalPicks)
  {
    var cur := Current(d);
    var other := Other(d);
    if id in other then d
    else if id in cur then WithCurrent(d, Filter(cur, x => x != id))
    else if |cur| < PicksPerTeam then
      var added := cur + [id];
      var d1 := WithCurrent(d, added);
      if |added| + |other| < TotalPicks then d1.(currentTeam := if d.currentTeam == 1 then 2 else 1)
      else d1
    else d
  }

  lemma {:induction false} FilterDistinct(s: seq<string>, p: string -> bool)
    requires Distinct(s)
    ensures Distinct(Filter(s, p))
  {
    if s != [] {
      assert Distinct(s[1..]) by {
        forall i, j | 0 <= i < j < |s[1..]| ensures s[1..][i] != s[1..][j] {
          assert s[1..][i] == s[i + 1] && s[1..][j] == s[j + 1];
        }
      }
      FilterDistinct(s[1..], p);
      assert s[0] !in s[1..];
      var rest := Filter(s[1..], p);
      assert s[0] !in rest;
      assert Filter(s, p) == (if p(s[0]) then [s[0]] else []) + rest;
    }
  }

  /** Every selection keeps the draft valid. */
  lemma SelectKeepsValid(d: Draft, id: string)
    requires Valid(d)
    ensures Valid(Select(d, id))
  {
    var cur := Current(d);
    var other := Other(d);
    if id !in other && id in cur {
      FilterDistinct(cur, x => x != id);
    } else if id !in other && id !in cur && |cur| < PicksPerTeam {
      var added := cur + [id];
      assert Distinct(added) by {
        forall i, j | 0 <= i < j < |added| ensures added[i] != added[j] {
          if j == |cur| {
            assert added[i] == cur[i];
            assert cur[i] in cur;
          } else {
            assert added[i] == cur[i] && added[j] == cur[j];
          }
        }
      }
    }
  }

  /** All six picks made: both teams hold exactly three. */
  predicate AllTeamsComplete(d: Draft) {
    |d.team1| == PicksPerTeam && |d.team2| == PicksPerTeam
  }

  /** `canClick` of a category card. */
  predicate CanClick(d: Draft, id: string) {
    || (id in d.team1 && d.currentTeam == 1)
    || (id in d.team2 && d.currentTeam == 2)
    || (id !in d.team1 && id !in d.team2 && |Current(d)| < PicksPerTeam && !AllTeamsComplete(d))
  }

  /** `isDisabled` of a category card. */
  predicate IsDisabled(d: Draft, id: string) {
    || id in Other(d)
    || AllTeamsComplete(d)
    || (id !in Current(d) && |Current(d)| >= PicksPerTeam)
  }

  /** The click guard lets through exactly the clicks that change the draft. */
  lemma CanClickIffChanges(d: Draft, id: string)
    requires Valid(d)
    ensures CanClick(d, id) <==> Select(d, id) != d
  {
    var cur := Current(d);
    if id !in Other(d) && id in cur {
      var kept := Filter(cur, x => x != id);
      assert id !in kept;
      assert Current(WithCurrent(d, kept)) == kept;
    } else if id !in Other(d) && id !in cur && |cur| < PicksPerTeam {
      assert |Current(Select(d, id))| == |cur| + 1 || |Other(Select(d, id))| == |cur| + 1;
    }
  }

  /** A card that is not shown disabled can be clicked. */
  lemma EnabledIsClickable(d: Draft, id: string)
    requires Valid(d)
    ensures !IsDisabled(d, id) ==> CanClick(d, id)
  {
  }

  /**
    The `isDisabled` flag alone does not forbid a click: once all six picks are made, the flag
    is set on the current team's own cards, yet `canClick` holds and a click drops the card.
    Such a card is rendered as selected, not disabled, because the class chooser tests
    `isSelectedByCurrentTeam` first, so the flag is not what the page shows for it.
  */
  lemma DisabledYetClickable()
    ensures var d := Draft(["a", "b", "c"], ["d", "e", "f"], 1);
      Valid(d) && IsDisabled(d, "a") && CanClick(d, "a") && Select(d, "a") != d
  {
    var d := Draft(["a", "b", "c"], ["d", "e", "f"], 1);
    CanClickIffChanges(d, "a");
  }

  /** `t1Name || "Team 1"` passed through `sanitizeHTML`. */
  function TeamName(stored: Option<string>, default: string): (name: string)
    ensures '<' !in name && '>' !in name
    ensures stored.Some? && stored.value != [] ==> name == Sanitize.SanitizeHTML(stored.value)
  {
    Sanitize.SanitizeHTML(if stored.Some? && stored.value != [] then stored.value else default)
  }

  /** Without stored names the defaults `Team 1` and `Team 2` are shown unchanged. */
  lemma DefaultTeamNames(digit: char)
    requires IsDigit(digit)
    ensures TeamName(None, "Team " + [digit]) == "Team " + [digit]
  {
    var s := "Team " + [digit];
    assert s[0] == 'T' && s[1] == 'e' && s[2] == 'a' && s[3] == 'm' && s[4] == ' ' && s[5] == digit;
    Sanitize.SanitizeHTMLPlain(s);
  }

  /** Names saved by the team form are the ones shown here, after HTML sanitising. */
  lemma SavedNamesShown(typed1: string, typed2: string)
    requires TeamSetup.HandleNext(typed1, typed2).Some?
    ensures var s := TeamSetup.HandleNext(typed1, typed2).value;
      TeamName(Some(s.0), Team1Default) == Sanitize.SanitizeHTML(Trim(typed1))
      && TeamName(Some(s.1), Team2Default) == Sanitize.SanitizeHTML(Trim(typed2))
  {
  }

  /** What `handleStartGame` saves and where it goes. */
  datatype Launch = Launch(team1Categories: seq<string>, team2Categories: seq<string>, path: string)

  /** The category-selection page's state. */
  class DraftPage {
    var team1Categories: seq<string>
    var team2Categories: seq<string>
    var currentTeam: int
    var team1Name: string
    var team2Name: string

    function State(): Draft
      reads this
    {
      Draft(team1Categories, team2Categories, currentTeam)
    }

    /** The page as mounted, with the team names read from storage. */
    constructor (storedTeam1: Option<string>, storedTeam2: Option<string>)
      ensures State() == Start
      ensures Valid(State())
      ensures team1Name == TeamName(storedTeam1, Team1Default) && team2Name == TeamName(storedTeam2, Team2Default)
    {
      var name1 := TeamName(storedTeam1, Team1Default);
      var name2 := TeamName(storedTeam2, Team2Default);
      team1Name, team2Name := name1, name2;
      team1Categories := [];
      team2Categories := [];
      currentTeam := 1;
      StartIsValid(Draft([], [], 1));
    }

    /** `handleCategorySelect`. */
    method HandleCategorySelect(id: string)
      requires Valid(State())
      modifies this
      ensures State() == Select(old(State()), id)
      ensures Valid(State())
      ensures team1Name == old(team1Name) && team2Name == old(team2Name)
    {
      SelectKeepsValid(State(), id);
      var current := if currentTeam == 1 then team1Categories else team2Categories;
      var other := if currentTeam == 1 then team2Categories else team1Categories;
      if id in other {
        return;
      }
      if id in current {
        var kept := Filter(current, x => x != id);
        if currentTeam == 1 { team1Categories := kept; } else { team2Categories := kept; }
        return;
      }
      if |current| < PicksPerTeam {
        var added := current + [id];
        if currentTeam == 1 { team1Categories := added; } else { team2Categories := added; }
        if |added| + |other| < TotalPicks {
          currentTeam := if currentTeam == 1 then 2 else 1;
        }
      }
    }

    /** A click on a card: handled only when the card's `canClick` holds. */
    method ClickCard(id: string)
      requires Valid(State())
      modifies this
      ensures State() == Select(old(State()), id)
      ensures Valid(State())
      ensures team1Name == old(team1Name) && team2Name == old(team2Name)
    {
      CanClickIffChanges(State(), id);
      if CanClick(State(), id) {
        HandleCategorySelect(id);
      }
    }

    /** `handleStartGame`: both teams' picks are saved and the game opens only when all six are made. */
    method HandleStartGame() returns (launch: Option<Launch>)
      ensures launch.Some? <==> AllTeamsComplete(State())
      ensures launch.Some? ==> launch.value == Launch(team1Categories, team2Categories, "/game")
    {
      if |team1Categories| == 3 && |team2Categories| == 3 {
        launch := Some(Launch(team1Categories, team2Categories, "/game"));
      } else {
        launch := None;
      }
    }
  }
}
