/**
 * The dashboard's environment store: the list of environments, the selected
 * environment's id and a loading flag, changed by the store's actions once
 * their request has come back. What a request returned is an input of the
 * action: `None` is a request that threw (a network failure, a body that is
 * not JSON), and the store is then left as it was, apart from the loading flag.
 */
module EnvStore {
  import opened Wrappers

  datatype Environment = Environment(id: string, name: string, command: Option<string>, vmCount: Option<int>)

  /** The id the store selects before anything is fetched. */
  const DefaultEnvId: string := "env-dev"

  /** `envs.find(e => e.id === id)`: the first environment with the id. */
  function FindById(envs: seq<Environment>, id: string): (r: Option<Environment>)
    ensures r.Some? ==> r.value in envs && r.value.id == id
    ensures r.Some? ==> exists k :: 0 <= k < |envs| && envs[k] == r.value && forall j :: 0 <= j < k ==> envs[j].id != id
    ensures r.None? <==> forall e :: e in envs ==> e.id != id
    decreases |envs|
  {
    if envs == [] then None
    else if envs[0].id == id then Some(envs[0])
    else FindById(envs[1..], id)
  }

  /** `envs.map(e => e.id === id ? updated : e)`. */
  function ReplaceById(envs: seq<Environment>, id: string, updated: Environment): (r: seq<Environment>)
    ensures |r| == |envs|
    ensures forall i :: 0 <= i < |envs| && envs[i].id == id ==> r[i] == updated
    ensures forall i :: 0 <= i < |envs| && envs[i].id != id ==> r[i] == envs[i]
    decreases |envs|
  {
    if envs == [] then []
    else [if envs[0].id == id then updated else envs[0]] + ReplaceById(envs[1..], id, updated)
  }

  /** `envs.filter(e => e.id !== id)`. */
  function RemoveById(envs: seq<Environment>, id: string): (r: seq<Environment>)
    ensures |r| <= |envs|
    decreases |envs|
  {
    if envs == [] then []
    else (if envs[0].id == id then [] else [envs[0]]) + RemoveById(envs[1..], id)
  }

  /** The selection after a fetch returned `data`: kept if `data` is empty or
      holds it, otherwise the first fetched environment's id. */
  function RepairSelection(data: seq<Environment>, current: string): (r: string)
    ensures data != [] ==> exists e :: e in data && e.id == r
    ensures (data == [] || FindById(data, current).Some?) ==> r == current
    ensures data != [] && FindById(data, current).None? ==> r == data[0].id
  {
    if |data| > 0 && FindById(data, current).None? then data[0].id else current
  }

  /** `state.selectedEnvId === id ? (state.environments[0]?.id || '') : state.selectedEnvId`,
      taken from the list as it was BEFORE the deletion. */
  function SelectionAfterDelete(envs: seq<Environment>, selected: string, id: string): (r: string)
    ensures selected != id ==> r == selected
    ensures selected == id && envs == [] ==> r == ""
    ensures selected == id && envs != [] ==> r == envs[0].id
  {
    if selected == id then (if envs == [] then "" else envs[0].id) else selected
  }

  class Store {
    var environments: seq<Environment>
    var selectedEnvId: string
    var isLoading: bool

    constructor ()
      ensures environments == [] && selectedEnvId == DefaultEnvId && !isLoading
    {
      environments := [];
      selectedEnvId := DefaultEnvId;
      isLoading := false;
    }

    /** The start of `fetchEnvironments`: the loading flag is raised only
        while the list is empty, so that a refresh does not flicker. */
    method BeginFetch()
      modifies this
      ensures isLoading == (old(environments) == [] || old(isLoading))
      ensures environments == old(environments) && selectedEnvId == old(selectedEnvId)
    {
      if |environments| == 0 {
        isLoading := true;
      }
    }

    /** The end of `fetchEnvironments`: on success the list becomes `data`
        and the selection is repaired; either way loading is over. */
    method FinishFetch(response: Option<seq<Environment>>)
      modifies this
      ensures !isLoading
      ensures response.Some? ==> environments == response.value
      ensures response.Some? ==> selectedEnvId == RepairSelection(response.value, old(selectedEnvId))
      ensures response.None? ==> environments == old(environments) && selectedEnvId == old(selectedEnvId)
    {
      if response.Some? {
        var data := response.value;
        environments := data;
        if |data| > 0 && FindById(data, selectedEnvId).None? {
          selectedEnvId := data[0].id;
        }
      }
      isLoading := false;
    }

    /** `addEnvironment`: the created environment is appended. */
    method AddEnvironment(response: Option<Environment>)
      modifies this
      ensures response.Some? ==> environments == old(environments) + [response.value]
      ensures response.None? ==> environments == old(environments)
      ensures selectedEnvId == old(selectedEnvId) && isLoading == old(isLoading)
    {
      if response.Some? {
        environments := environments + [response.value];
      }
    }

    /** `updateEnvironment(id, ...)`: every environment with the id is replaced
        by the one the server returned. */
    method UpdateEnvironment(id: string, response: Option<Environment>)
      modifies this
      ensures response.Some? ==> environments == ReplaceById(old(environments), id, response.value)
      ensures response.None? ==> environments == old(environments)
      ensures selectedEnvId == old(selectedEnvId) && isLoading == old(isLoading)
    {
      if response.Some? {
        environments := ReplaceById(environments, id, response.value);
      }
    }

    /** `deleteEnvironment(id)`: `succeeded` is whether the request came back
        at all (its status is not looked at). */
    method DeleteEnvironment(id: string, succeeded: bool)
      modifies this
      ensures succeeded ==> environments == RemoveById(old(environments), id)
      ensures succeeded ==> selectedEnvId == SelectionAfterDelete(old(environments), old(selectedEnvId), id)
      ensures !succeeded ==> environments == old(environments) && selectedEnvId == old(selectedEnvId)
      ensures isLoading == old(isLoading)
    {
      if succeeded {
        var before := environments;
        environments := RemoveById(before, id);
        selectedEnvId := SelectionAfterDelete(before, selectedEnvId, id);
      }
    }

    /** `selectEnvironment(id)`: any id is taken, known or not. */
    method SelectEnvironment(id: string)
      modifies this
      ensures selectedEnvId == id
      ensures environments == old(environments) && isLoading == old(isLoading)
    {
      selectedEnvId := id;
    }
  }

  // ---------------------------------------------------------------------
  // Properties of the list operations
  // ---------------------------------------------------------------------

  /** The filter keeps order: filtering a concatenation filters each part. */
  lemma {:induction false} RemoveByIdConcat(a: seq<Environment>, b: seq<Environment>, id: string)
    ensures RemoveById(a + b, id) == RemoveById(a, id) + RemoveById(b, id)
    decreases |a|
  {
    if a == [] {
      assert a + b == b;
    } else {
      assert (a + b)[0] == a[0];
      assert (a + b)[1..] == a[1..] + b;
      RemoveByIdConcat(a[1..], b, id);
    }
  }

  /** The filter keeps exactly the environments whose id is not the deleted one. */
  lemma {:induction false} RemoveByIdMembers(envs: seq<Environment>, id: string)
    ensures forall e :: e in RemoveById(envs, id) <==> e in envs && e.id != id
    decreases |envs|
  {
    if envs != [] {
      RemoveByIdMembers(envs[1..], id);
      assert envs == [envs[0]] + envs[1..];
    }
  }

  /** Deleting an id no environment has changes nothing. */
  lemma {:induction false} RemoveAbsentId(envs: seq<Environment>, id: string)
    requires forall e :: e in envs ==> e.id != id
    ensures RemoveById(envs, id) == envs
    decreases |envs|
  {
    if envs != [] {
      assert envs[0] in envs;
      assert forall e :: e in envs[1..] ==> e in envs;
      RemoveAbsentId(envs[1..], id);
    }
  }

  /** Updating an id no environment has changes nothing. */
  lemma UpdateAbsentId(envs: seq<Environment>, id: string, updated: Environment)
    requires forall e :: e in envs ==> e.id != id
    ensures ReplaceById(envs, id, updated) == envs
  {
    var r := ReplaceById(envs, id, updated);
    forall i | 0 <= i < |envs| ensures r[i] == envs[i] {
      assert envs[i] in envs;
    }
  }

  /** After a fetch of a non-empty list, the selection names one of the
      fetched environments. */
  lemma FetchSelectsKnownEnvironment(data: seq<Environment>, current: string)
    requires data != []
    ensures FindById(data, RepairSelection(data, current)).Some?
  {
  }

  /** Repairing twice is repairing once. */
  lemma RepairIdempotent(data: seq<Environment>, current: string)
    ensures RepairSelection(data, RepairSelection(data, current)) == RepairSelection(data, current)
  {
  }

  /** The delete rule's quirk: deleting the selected environment when it is
      the first of the list leaves the selection on the id just deleted, which
      names no environment any more. */
  lemma DeletingSelectedFirstKeepsIt(envs: seq<Environment>)
    requires envs != []
    ensures SelectionAfterDelete(envs, envs[0].id, envs[0].id) == envs[0].id
    ensures FindById(RemoveById(envs, envs[0].id), envs[0].id).None?
  {
    RemoveByIdMembers(envs, envs[0].id);
  }

  /** Deleting the selected environment when the first one has another id
      moves the selection to that first one, which is still in the list. */
  lemma DeletingSelectedOtherMovesToFirst(envs: seq<Environment>, id: string)
    requires envs != [] && envs[0].id != id
    ensures SelectionAfterDelete(envs, id, id) == envs[0].id
    ensures envs[0] in RemoveById(envs, id)
  {
    RemoveByIdMembers(envs, id);
  }

  /** Deleting an environment that is not selected keeps the selection. */
  lemma DeletingUnselectedKeepsSelection(envs: seq<Environment>, selected: string, id: string)
    requires selected != id
    ensures SelectionAfterDelete(envs, selected, id) == selected
  {
  }

  /** Deleting the selected environment from an empty list clears the selection. */
  lemma DeletingFromEmptyClearsSelection(id: string)
    ensures SelectionAfterDelete([], id, id) == ""
  {
  }

  /** The quirk through the store: fetch two environments, delete the first
      (which the fetch selected); the selection still names the deleted one. */
  method DeleteSelectedFirstScenario(a: Environment, b: Environment)
    returns (selected: string, remaining: seq<Environment>)
    requires a.id != b.id && b.id != DefaultEnvId
    ensures remaining == [b]
    ensures selected == a.id && FindById(remaining, selected).None?
  {
    var store := new Store();
    store.BeginFetch();
    store.FinishFetch(Some([a, b]));
    assert store.selectedEnvId == a.id;
    store.DeleteEnvironment(a.id, true);
    assert RemoveById([b], a.id) == [b];
    selected, remaining := store.selectedEnvId, store.environments;
  }
}

