/**
 * The roster manager: the ordered list of team names and the add, rename
 * and delete handlers' effect on it.
 */
module Roster {
  import opened Wrappers
  import opened Validation
  import opened Text

  /** `Array.prototype.indexOf`: the first slot holding the name, or -1. */
  function IndexOf(teams: seq<string>, name: string): (r: int)
    ensures -1 <= r < |teams|
    ensures r == -1 <==> name !in teams
    ensures r >= 0 ==> teams[r] == name && forall j :: 0 <= j < r ==> teams[j] != name
  {
    if teams == [] then -1
    else if teams[0] == name then 0
    else
      var k := IndexOf(teams[1..], name);
      if k == -1 then -1 else k + 1
  }

  /**
   * The invariant the roster handlers keep: every name is non-empty and
   * trimmed, and no name occurs twice.
   */
  predicate ValidRoster(teams: seq<string>) {
    (forall i :: 0 <= i < |teams| ==> teams[i] != [] && IsTrimmed(teams[i])) &&
    (forall i, j :: 0 <= i < j < |teams| ==> teams[i] != teams[j])
  }

  /**
   * `handleAddTeam`: the trimmed input is rejected when empty, then when
   * already on the roster; otherwise it is appended.
   */
  function AddTeam(teams: seq<string>, input: string): (r: Result<seq<string>, ValidationError>)
    ensures r == Err(EmptyName) <==> AllWhitespace(input)
    ensures r == Err(DuplicateName) <==> !AllWhitespace(input) && Trim(input) in teams
    ensures r.Ok? <==> !AllWhitespace(input) && Trim(input) !in teams
    ensures r.Ok? ==> r.value == teams + [Trim(input)]
  {
    var name := Trim(input);
    if name == [] then Err(EmptyName)
    else if name in teams then Err(DuplicateName)
    else Ok(teams + [name])
  }

  /** Adding keeps the roster valid. */
  lemma AddKeepsRosterValid(teams: seq<string>, input: string)
    requires ValidRoster(teams) && AddTeam(teams, input).Ok?
    ensures ValidRoster(AddTeam(teams, input).value)
  {
    var name := Trim(input);
    var r := teams + [name];
    forall i, j | 0 <= i < j < |r| ensures r[i] != r[j] {
      if j == |teams| {
        assert r[i] in teams;
      }
    }
  }

  /**
   * `handleSaveTeam(index)`: the trimmed input is rejected when empty, then
   * when its first occurrence on the roster is at another slot; otherwise
   * it replaces the name at `index` and nothing else.
   */
  function SaveTeam(teams: seq<string>, index: nat, input: string): (r: Result<seq<string>, ValidationError>)
    requires index < |teams|
    ensures r == Err(EmptyName) <==> AllWhitespace(input)
    ensures r == Err(DuplicateName) <==> !AllWhitespace(input) && Trim(input) in teams && IndexOf(teams, Trim(input)) != index
    ensures r.Err? ==> r.error == EmptyName || r.error == DuplicateName
    ensures r.Ok? ==> |r.value| == |teams| && r.value[index] == Trim(input)
    ensures r.Ok? ==> forall j :: 0 <= j < |teams| && j != index ==> r.value[j] == teams[j]
  {
    var name := Trim(input);
    if name == [] then Err(EmptyName)
    else if name in teams && IndexOf(teams, name) != index then Err(DuplicateName)
    else Ok(teams[index := name])
  }

  /**
   * On a valid roster the duplicate test means what it should: a rename is
   * rejected as a duplicate exactly when another slot holds the new name.
   */
  lemma SaveTeamDuplicate(teams: seq<string>, index: nat, input: string)
    requires ValidRoster(teams) && index < |teams| && !AllWhitespace(input)
    ensures SaveTeam(teams, index, input) == Err(DuplicateName) <==>
      exists j :: 0 <= j < |teams| && j != index && teams[j] == Trim(input)
  {
    var name := Trim(input);
    if exists j :: 0 <= j < |teams| && j != index && teams[j] == name {
      var j :| 0 <= j < |teams| && j != index && teams[j] == name;
      assert IndexOf(teams, name) == j;
    }
  }

  /** Renaming a team to its own current name is accepted and changes nothing. */
  lemma SaveTeamOwnName(teams: seq<string>, index: nat, input: string)
    requires ValidRoster(teams) && index < |teams| && Trim(input) == teams[index]
    ensures SaveTeam(teams, index, input) == Ok(teams)
  {
    var name := Trim(input);
    assert IndexOf(teams, name) == index;
    assert teams[index := name] == teams;
  }

  /** Renaming keeps the roster valid. */
  lemma SaveKeepsRosterValid(teams: seq<string>, index: nat, input: string)
    requires ValidRoster(teams) && index < |teams| && SaveTeam(teams, index, input).Ok?
    ensures ValidRoster(SaveTeam(teams, index, input).value)
  {
    var name := Trim(input);
    var r := SaveTeam(teams, index, input).value;
    SaveTeamDuplicate(teams, index, input);
    forall i, j | 0 <= i < j < |r| ensures r[i] != r[j] {
      if i == index {
        assert r[j] == teams[j];
      } else if j == index {
        assert r[i] == teams[i];
      }
    }
  }

  /**
   * `teams.filter((_, i) => i !== index)`: the roster without slot `index`,
   * the others keeping their order; an index off the roster removes nothing.
   */
  function RemoveTeam(teams: seq<string>, index: int): (r: seq<string>)
    ensures 0 <= index < |teams| ==> r == teams[..index] + teams[index + 1..]
    ensures !(0 <= index < |teams|) ==> r == teams
  {
    if teams == [] then []
    else
      var init := RemoveTeam(teams[..|teams| - 1], index);
      if index == |teams| - 1 then init else init + [teams[|teams| - 1]]
  }

  /** Removing keeps the roster valid. */
  lemma RemoveKeepsRosterValid(teams: seq<string>, index: int)
    requires ValidRoster(teams)
    ensures ValidRoster(RemoveTeam(teams, index))
  {
    var r := RemoveTeam(teams, index);
    if 0 <= index < |teams| {
      forall i | 0 <= i < |r| ensures r[i] == teams[if i < index then i else i + 1] {
      }
    }
  }
}
