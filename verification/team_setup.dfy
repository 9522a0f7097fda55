/** The team-name form (app/team-setup/page.tsx). */
module TeamSetup {
  import opened Common
  import opened JsString

  const MaxLength: nat := 30

  /** The `onChange` handler of either name field: input is cut to 30 characters. */
  function OnNameChange(value: string): (name: string)
    ensures |name| <= MaxLength && |name| <= |value|
    ensures name == value[..|name|]
    ensures |value| <= MaxLength ==> name == value
    ensures |value| > MaxLength ==> |name| == MaxLength
  {
    Take(value, MaxLength)
  }

  /** `isFormValid`: both names hold something other than white space. */
  function IsFormValid(team1Name: string, team2Name: string): (ok: bool)
    ensures ok <==> !AllSpace(team1Name) && !AllSpace(team2Name)
  {
    Trim(team1Name) != [] && Trim(team2Name) != []
  }

  /**
    `handleNext`: with a valid form the trimmed names are stored (and the page moves on);
    otherwise nothing happens.
  */
  function HandleNext(team1Name: string, team2Name: string): (stored: Option<(string, string)>)
    ensures stored.Some? <==> IsFormValid(team1Name, team2Name)
    ensures stored.Some? ==>
      && stored.value.0 != [] && stored.value.1 != []
      && Trim(stored.value.0) == stored.value.0 && Trim(stored.value.1) == stored.value.1
      && stored.value.0 == Trim(team1Name) && stored.value.1 == Trim(team2Name)
  {
    if Trim(team1Name) != [] && Trim(team2Name) != [] then
      TrimNoop(Trim(team1Name));
      TrimNoop(Trim(team2Name));
      Some((Trim(team1Name), Trim(team2Name)))
    else None
  }

  /** The warning under the form: shown when something was typed but the form is not valid. */
  function ShowWarning(team1Name: string, team2Name: string): (shown: bool)
    ensures shown <==> (team1Name != [] || team2Name != []) && (AllSpace(team1Name) || AllSpace(team2Name))
  {
    !IsFormValid(team1Name, team2Name) && (team1Name != [] || team2Name != [])
  }

  /** Names typed into the form are stored at most 30 characters long. */
  lemma StoredNamesFit(typed1: string, typed2: string)
    requires HandleNext(OnNameChange(typed1), OnNameChange(typed2)).Some?
    ensures var s := HandleNext(OnNameChange(typed1), OnNameChange(typed2)).value;
      0 < |s.0| <= MaxLength && 0 < |s.1| <= MaxLength
  {
  }
}
