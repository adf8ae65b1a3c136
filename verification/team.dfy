/**
 * The team panel of the browser code (public/app.js): `state.team` is an
 * array of `MAX_TEAM_SIZE` slots, each a character or `null`, written in
 * place by `addToTeam`, by a slot's remove button and by the reset button.
 */
module TeamPanel {
  import opened JsonValues

  const MAX_TEAM_SIZE := 5

  /** A prepared character; only its `id` matters to the team. */
  datatype Character = Character(id: Json, name: Json)

  /** `member && member.id === id`. */
  predicate HasId(m: Option<Character>, id: Json)
  {
    m.Some? && m.value.id == id
  }

  /** `team.findIndex((member) => member && member.id === id)`; `None` is `-1`. */
  function FindMember(team: seq<Option<Character>>, id: Json): (r: Option<nat>)
    ensures r.Some? ==> r.value < |team| && HasId(team[r.value], id)
    ensures r.Some? ==> forall j :: 0 <= j < r.value ==> !HasId(team[j], id)
    ensures r.None? ==> forall j :: 0 <= j < |team| ==> !HasId(team[j], id)
  {
    if team == [] then None
    else if HasId(team[0], id) then Some(0)
    else match FindMember(team[1..], id)
      case Some(k) => Some(k + 1)
      case None => None
  }

  /** `team.findIndex((member) => !member)`; `None` is `-1`. */
  function FirstEmpty(team: seq<Option<Character>>): (r: Option<nat>)
    ensures r.Some? ==> r.value < |team| && team[r.value].None?
    ensures r.Some? ==> forall j :: 0 <= j < r.value ==> team[j].Some?
    ensures r.None? ==> forall j :: 0 <= j < |team| ==> team[j].Some?
  {
    if team == [] then None
    else if team[0].None? then Some(0)
    else match FirstEmpty(team[1..])
      case Some(k) => Some(k + 1)
      case None => None
  }

  /** What `addToTeam` does: the two refusals, or the slot it fills. */
  datatype AddOutcome = AlreadyInTeam | TeamFull | Added(slot: nat)

  function AddPlan(team: seq<Option<Character>>, c: Character): AddOutcome
  {
    if FindMember(team, c.id).Some? then AlreadyInTeam
    else if FirstEmpty(team).None? then TeamFull
    else Added(FirstEmpty(team).value)
  }

  /** The team after `addToTeam(c)`. */
  function AddResult(team: seq<Option<Character>>, c: Character): (r: seq<Option<Character>>)
    ensures |r| == |team|
  {
    match AddPlan(team, c)
    case Added(i) => team[i := Some(c)]
    case _ => team
  }

  /** No two members share an id. */
  predicate DistinctIds(team: seq<Option<Character>>)
  {
    forall i, j :: 0 <= i < j < |team| && team[i].Some? && team[j].Some? ==> team[i].value.id != team[j].value.id
  }

  class Team {
    var slots: array<Option<Character>>

    predicate Valid()
      reads this
    {
      slots.Length == MAX_TEAM_SIZE
    }

    /** `Array.from({ length: MAX_TEAM_SIZE }, () => null)`. */
    constructor ()
      ensures Valid() && fresh(slots)
      ensures forall i :: 0 <= i < slots.Length ==> slots[i].None?
    {
      slots := new Option<Character>[MAX_TEAM_SIZE](_ => None);
    }

    /** `addToTeam(character)`. */
    method AddToTeam(c: Character) returns (outcome: AddOutcome)
      requires Valid()
      modifies slots
      ensures Valid()
      ensures outcome == AddPlan(old(slots[..]), c)
      ensures slots[..] == AddResult(old(slots[..]), c)
    {
      var existsIndex := FindIndexOf(c.id);
      if existsIndex.Some? {
        return AlreadyInTeam;
      }
      var emptyIndex := FindEmpty();
      if emptyIndex.None? {
        return TeamFull;
      }
      slots[emptyIndex.value] := Some(c);
      outcome := Added(emptyIndex.value);
    }

    /** The `findIndex` scan for a member with this id. */
    method FindIndexOf(id: Json) returns (r: Option<nat>)
      ensures r == FindMember(slots[..], id)
    {
      var i := 0;
      while i < slots.Length
        invariant 0 <= i <= slots.Length
        invariant forall j :: 0 <= j < i ==> !HasId(slots[j], id)
      {
        if HasId(slots[i], id) {
          FirstMatch(slots[..], id, i);
          return Some(i);
        }
        i := i + 1;
      }
      return None;
    }

    /** The `findIndex` scan for an empty slot. */
    method FindEmpty() returns (r: Option<nat>)
      ensures r == FirstEmpty(slots[..])
    {
      var i := 0;
      while i < slots.Length
        invariant 0 <= i <= slots.Length
        invariant forall j :: 0 <= j < i ==> slots[j].Some?
      {
        if slots[i].None? {
          FirstHole(slots[..], i);
          return Some(i);
        }
        i := i + 1;
      }
      return None;
    }

    /** A slot's remove button: `state.team[index] = null`. */
    method RemoveAt(index: nat)
      requires Valid() && index < slots.Length
      modifies slots
      ensures Valid()
      ensures slots[..] == old(slots[..])[index := None]
    {
      slots[index] := None;
    }

    /** The reset button: `state.team.fill(null)`. */
    method Reset()
      requires Valid()
      modifies slots
      ensures Valid()
      ensures forall i :: 0 <= i < slots.Length ==> slots[i].None?
    {
      forall i | 0 <= i < slots.Length {
        slots[i] := None;
      }
    }
  }

  /** The first index holding the id is the one `FindMember` names. */
  lemma FirstMatch(team: seq<Option<Character>>, id: Json, i: nat)
    requires i < |team| && HasId(team[i], id)
    requires forall j :: 0 <= j < i ==> !HasId(team[j], id)
    ensures FindMember(team, id) == Some(i)
  {
    var r := FindMember(team, id);
    assert r.Some?;
  }

  /** The first empty index is the one `FirstEmpty` names. */
  lemma FirstHole(team: seq<Option<Character>>, i: nat)
    requires i < |team| && team[i].None?
    requires forall j :: 0 <= j < i ==> team[j].Some?
    ensures FirstEmpty(team) == Some(i)
  {
    var r := FirstEmpty(team);
    assert r.Some?;
  }

  /**
   * `addToTeam` leaves the team as it was exactly when a member with the
   * same id is there or no slot is empty.
   */
  lemma AddUnchangedIff(team: seq<Option<Character>>, c: Character)
    ensures AddResult(team, c) == team <==>
      (exists i :: 0 <= i < |team| && HasId(team[i], c.id)) || (forall i :: 0 <= i < |team| ==> team[i].Some?)
  {
    if AddPlan(team, c).Added? {
      var k := AddPlan(team, c).slot;
      assert AddResult(team, c)[k] != team[k];
    } else if FindMember(team, c.id).Some? {
      var k := FindMember(team, c.id).value;
      assert HasId(team[k], c.id);
    }
  }

  /**
   * Otherwise only the first empty slot changes, to the character: every
   * slot before it is occupied and every other slot keeps its content.
   */
  lemma AddFillsFirstEmpty(team: seq<Option<Character>>, c: Character, k: nat)
    requires k < |team| && team[k].None?
    requires forall j :: 0 <= j < k ==> team[j].Some?
    requires forall j :: 0 <= j < |team| ==> !HasId(team[j], c.id)
    ensures AddResult(team, c)[k] == Some(c)
    ensures forall j :: 0 <= j < |team| && j != k ==> AddResult(team, c)[j] == team[j]
  {
    FirstHole(team, k);
  }

  /** Adding never puts two members with the same id in the team. */
  lemma AddKeepsDistinct(team: seq<Option<Character>>, c: Character)
    requires DistinctIds(team)
    ensures DistinctIds(AddResult(team, c))
  {
    var r := AddResult(team, c);
    if AddPlan(team, c).Added? {
      var k := AddPlan(team, c).slot;
      forall i, j | 0 <= i < j < |r| && r[i].Some? && r[j].Some?
        ensures r[i].value.id != r[j].value.id
      {
        if i == k {
          assert !HasId(team[j], c.id);
        } else if j == k {
          assert !HasId(team[i], c.id);
        }
      }
    }
  }

  /** Removing a member never puts two members with the same id in the team. */
  lemma RemoveKeepsDistinct(team: seq<Option<Character>>, index: nat)
    requires DistinctIds(team) && index < |team|
    ensures DistinctIds(team[index := None])
  {
  }

  /** After a successful add the character is found in the team at the slot it filled. */
  lemma AddedIsFound(team: seq<Option<Character>>, c: Character)
    requires AddPlan(team, c).Added?
    ensures FindMember(AddResult(team, c), c.id) == Some(AddPlan(team, c).slot)
  {
    var k := AddPlan(team, c).slot;
    var r := AddResult(team, c);
    forall j | 0 <= j < k
      ensures !HasId(r[j], c.id)
    {
      assert r[j] == team[j];
    }
    FirstMatch(r, c.id, k);
  }
}
