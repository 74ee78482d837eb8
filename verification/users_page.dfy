/**
 * The users page's local state: the search term, the selection, and the
 * create/edit form. Calls to the user service are returned as requests.
 */
module UsersPage {
  import opened Wrappers
  import opened Text
  import opened Seqs
  import opened UserModel
  import opened UserCard

  datatype PageState = PageState(
    searchTerm: string,
    selectedUsers: seq<User>,
    showForm: bool,
    editingUser: Option<User>,
    saving: bool)

  const Initial := PageState("", [], false, None, false)

  // ---------------------------------------------------------------- search

  /** The (already lower-cased) search occurs in the user's lower-cased name, email or company name. */
  ghost predicate MatchesSearch(u: User, search: string) {
    || (exists i :: OccursAt(Lower(u.name), search, i))
    || (exists i :: OccursAt(Lower(u.email), search, i))
    || (exists i :: OccursAt(Lower(u.company.name), search, i))
  }

  /** The filter's test, using `includes`. */
  function UserMatches(u: User, search: string): bool {
    Includes(Lower(u.name), search) || Includes(Lower(u.email), search) || Includes(Lower(u.company.name), search)
  }

  lemma UserMatchesIff(search: string)
    ensures forall u :: UserMatches(u, search) <==> MatchesSearch(u, search)
  {
    forall u: User ensures UserMatches(u, search) <==> MatchesSearch(u, search) {
      IncludesIffOccurs(Lower(u.name), search);
      IncludesIffOccurs(Lower(u.email), search);
      IncludesIffOccurs(Lower(u.company.name), search);
    }
  }

  /** The users passing the `includes` test, in their original order. */
  function Matching(users: seq<User>, search: string): seq<User> {
    Filter(users, u => UserMatches(u, search))
  }

  /** Each user occurs in `Matching` as often as in the list when it matches, and not at all otherwise. */
  lemma MatchingCount(users: seq<User>, search: string, v: User)
    ensures multiset(Matching(users, search))[v] == if MatchesSearch(v, search) then multiset(users)[v] else 0
  {
    FilterCount(users, u => UserMatches(u, search), v);
    IncludesIffOccurs(Lower(v.name), search);
    IncludesIffOccurs(Lower(v.email), search);
    IncludesIffOccurs(Lower(v.company.name), search);
  }

  /** The empty search occurs in every user's name. */
  lemma EmptySearchMatchesAll()
    ensures forall v: User :: MatchesSearch(v, "")
  {
    forall v: User ensures MatchesSearch(v, "") {
      assert OccursAt(Lower(v.name), "", 0);
    }
  }

  /** The order, membership and multiplicity facts about `Matching`. */
  lemma MatchingFacts(users: seq<User>, search: string)
    ensures SubsequenceOf(Matching(users, search), users)
    ensures forall i :: 0 <= i < |Matching(users, search)| ==> MatchesSearch(Matching(users, search)[i], search)
    ensures forall i :: 0 <= i < |users| && MatchesSearch(users[i], search) ==> users[i] in Matching(users, search)
    ensures forall v :: multiset(Matching(users, search))[v] == if MatchesSearch(v, search) then multiset(users)[v] else 0
  {
    UserMatchesIff(search);
    FilterIsSubsequence(users, u => UserMatches(u, search));
    forall v { MatchingCount(users, search, v); }
  }

  /**
   * `filteredUsers()`: an empty search gives the list unchanged; otherwise
   * exactly the matching users, in their original order, each as often as
   * it occurs in the list.
   */
  function FilteredUsers(users: seq<User>, searchTerm: string): (r: seq<User>)
    ensures searchTerm == "" ==> r == users
    ensures |r| <= |users|
    ensures forall v :: multiset(r)[v] == if MatchesSearch(v, Lower(searchTerm)) then multiset(users)[v] else 0
    ensures SubsequenceOf(r, users)
    ensures forall i :: 0 <= i < |r| ==> MatchesSearch(r[i], Lower(searchTerm))
    ensures forall i :: 0 <= i < |users| && MatchesSearch(users[i], Lower(searchTerm)) ==> users[i] in r
  {
    var search := Lower(searchTerm);
    if search == "" then
      EmptySearchMatchesAll();
      FilterIsSubsequence(users, u => true);
      FilterKeepsAll(users, u => true);
      users
    else
      MatchingFacts(users, search);
      Matching(users, search)
  }

  // ---------------------------------------------------------------- selection

  /** `isUserSelected(user)`: some selected entry has the user's id. */
  predicate IsUserSelected(selection: seq<User>, u: User) {
    exists i :: 0 <= i < |selection| && selection[i].id == u.id
  }

  /** No two selected entries share an id. */
  ghost predicate NoDuplicateIds(selection: seq<User>) {
    forall i, j :: 0 <= i < j < |selection| ==> selection[i].id != selection[j].id
  }

  /** `findIndex(u => u.id === id)`. */
  function FindIndexById(selection: seq<User>, id: int): (i: int)
    ensures -1 <= i < |selection|
    ensures i >= 0 ==> selection[i].id == id && forall j :: 0 <= j < i ==> selection[j].id != id
    ensures i == -1 ==> forall j :: 0 <= j < |selection| ==> selection[j].id != id
    decreases |selection|
  {
    if |selection| == 0 then -1
    else if selection[0].id == id then 0
    else
      var i := FindIndexById(selection[1..], id);
      if i == -1 then -1 else i + 1
  }

  /**
   * `isUserSelected`'s `some` test and `toggleUserSelection`'s `findIndex`
   * test agree: a user is selected exactly when the search by id finds an index.
   */
  lemma SelectedIffFound(selection: seq<User>, u: User)
    ensures IsUserSelected(selection, u) <==> FindIndexById(selection, u.id) >= 0
  {
  }

  /** The ids of the selected entries, in selection order. */
  function Ids(selection: seq<User>): (r: seq<int>)
    ensures |r| == |selection|
    ensures forall i :: 0 <= i < |r| ==> r[i] == selection[i].id
  {
    if |selection| == 0 then [] else [selection[0].id] + Ids(selection[1..])
  }

  /** Dropping the first entry keeps ids distinct. */
  lemma TailNoDuplicateIds(selection: seq<User>)
    requires |selection| > 0 && NoDuplicateIds(selection)
    ensures NoDuplicateIds(selection[1..])
  {
    var tail := selection[1..];
    forall i, j | 0 <= i < j < |tail| ensures tail[i].id != tail[j].id {
      assert tail[i] == selection[i + 1] && tail[j] == selection[j + 1];
    }
  }

  /** In a selection without duplicate ids, each selected id occurs once among the ids and every other id not at all. */
  lemma {:induction false} IdsCount(selection: seq<User>, id: int)
    requires NoDuplicateIds(selection)
    ensures multiset(Ids(selection))[id] == if exists i :: 0 <= i < |selection| && selection[i].id == id then 1 else 0
    decreases |selection|
  {
    if |selection| > 0 {
      var tail := selection[1..];
      TailNoDuplicateIds(selection);
      IdsCount(tail, id);
      assert Ids(selection) == [selection[0].id] + Ids(tail);
      assert multiset(Ids(selection)) == multiset{selection[0].id} + multiset(Ids(tail));
      if selection[0].id == id {
        forall k | 0 <= k < |tail| ensures tail[k].id != id {
          assert tail[k] == selection[k + 1];
        }
      } else if exists i :: 0 <= i < |selection| && selection[i].id == id {
        var i :| 0 <= i < |selection| && selection[i].id == id;
        assert tail[i - 1] == selection[i];
      } else {
        forall k | 0 <= k < |tail| ensures tail[k].id != id {
          assert tail[k] == selection[k + 1];
        }
      }
    }
  }

  /**
   * `removeUserFromSelection(id)`: drops every entry with that id and keeps
   * the rest in order, each as often as before.
   */
  function RemoveFromSelection(selection: seq<User>, id: int): (r: seq<User>)
    ensures forall v :: multiset(r)[v] == if v.id == id then 0 else multiset(selection)[v]
    ensures forall i :: 0 <= i < |r| ==> r[i].id != id
    ensures forall i :: 0 <= i < |selection| && selection[i].id != id ==> selection[i] in r
    ensures forall i :: 0 <= i < |r| ==> r[i] in selection
    ensures SubsequenceOf(r, selection)
  {
    FilterIsSubsequence(selection, (u: User) => u.id != id);
    forall v ensures multiset(Filter(selection, (u: User) => u.id != id))[v]
                     == if v.id != id then multiset(selection)[v] else 0 {
      FilterCount(selection, (u: User) => u.id != id, v);
    }
    Filter(selection, (u: User) => u.id != id)
  }

  /** Removing an id nobody has changes nothing. */
  lemma RemoveAbsentId(selection: seq<User>, id: int)
    requires forall i :: 0 <= i < |selection| ==> selection[i].id != id
    ensures RemoveFromSelection(selection, id) == selection
  {
    FilterKeepsAll(selection, (u: User) => u.id != id);
  }

  /** `toggleUserSelection(user)`: a selected user is removed (by id), another one is appended. */
  function ToggleSelection(selection: seq<User>, u: User): (r: seq<User>)
    ensures IsUserSelected(r, u) <==> !IsUserSelected(selection, u)
    ensures IsUserSelected(selection, u) ==> r == RemoveFromSelection(selection, u.id)
    ensures !IsUserSelected(selection, u) ==> r == selection + [u]
  {
    var index := FindIndexById(selection, u.id);
    if index >= 0 then
      RemoveFromSelection(selection, u.id)
    else
      var r := selection + [u];
      assert r[|selection|].id == u.id;
      r
  }

  /** Toggling an unselected user twice restores the selection. */
  lemma ToggleTwiceRestores(selection: seq<User>, u: User)
    requires !IsUserSelected(selection, u)
    ensures ToggleSelection(ToggleSelection(selection, u), u) == selection
  {
    var p := (v: User) => v.id != u.id;
    FilterAppend(selection, [u], p);
    FilterKeepsAll(selection, p);
    assert Filter([u], p) == [];
  }

  /** Prepending a user whose id nobody in `rest` has keeps ids distinct. */
  lemma ConsNoDuplicateIds(u: User, rest: seq<User>)
    requires NoDuplicateIds(rest)
    requires forall k :: 0 <= k < |rest| ==> rest[k].id != u.id
    ensures NoDuplicateIds([u] + rest)
  {
    var r := [u] + rest;
    forall i, j | 0 <= i < j < |r| ensures r[i].id != r[j].id {
      assert r[j] == rest[j - 1];
      if i > 0 {
        assert r[i] == rest[i - 1];
      }
    }
  }

  /** Filtering keeps distinct ids distinct. */
  lemma {:induction false} FilterNoDuplicateIds(selection: seq<User>, p: User -> bool)
    requires NoDuplicateIds(selection)
    ensures NoDuplicateIds(Filter(selection, p))
    decreases |selection|
  {
    if |selection| > 0 {
      var tail := selection[1..];
      TailNoDuplicateIds(selection);
      FilterNoDuplicateIds(tail, p);
      var rest := Filter(tail, p);
      if p(selection[0]) {
        forall k | 0 <= k < |rest| ensures rest[k].id != selection[0].id {
          var m :| 0 <= m < |tail| && tail[m] == rest[k];
          assert tail[m] == selection[m + 1];
        }
        ConsNoDuplicateIds(selection[0], rest);
      }
    }
  }

  // ---------------------------------------------------------------- page transitions

  function TogglePageSelection(p: PageState, u: User): (q: PageState)
    ensures q.selectedUsers == ToggleSelection(p.selectedUsers, u)
    ensures q == p.(selectedUsers := q.selectedUsers)
  {
    p.(selectedUsers := ToggleSelection(p.selectedUsers, u))
  }

  /** `clearSelection()`: nothing is selected afterwards; nothing else changes. */
  function ClearSelection(p: PageState): (q: PageState)
    ensures forall u: User :: !IsUserSelected(q.selectedUsers, u)
    ensures q == p.(selectedUsers := q.selectedUsers)
  {
    p.(selectedUsers := [])
  }

  /** After a successful delete of one user, that user's id leaves the selection. */
  function DeleteUserSucceeded(p: PageState, id: int): (q: PageState)
    ensures forall u: User :: u.id == id ==> !IsUserSelected(q.selectedUsers, u)
    ensures q == p.(selectedUsers := RemoveFromSelection(p.selectedUsers, id))
  {
    p.(selectedUsers := RemoveFromSelection(p.selectedUsers, id))
  }

  /** Toggling a user keeps the selection free of duplicate ids. */
  lemma ToggleKeepsIdsDistinct(p: PageState, u: User)
    requires NoDuplicateIds(p.selectedUsers)
    ensures NoDuplicateIds(TogglePageSelection(p, u).selectedUsers)
  {
    FilterNoDuplicateIds(p.selectedUsers, (v: User) => v.id != u.id);
  }

  /** Removing a deleted user's id keeps the selection free of duplicate ids. */
  lemma DeleteKeepsIdsDistinct(p: PageState, id: int)
    requires NoDuplicateIds(p.selectedUsers)
    ensures NoDuplicateIds(DeleteUserSucceeded(p, id).selectedUsers)
  {
    FilterNoDuplicateIds(p.selectedUsers, (v: User) => v.id != id);
  }

  datatype BulkDelete = BulkDelete(state: PageState, confirmAsked: bool, deleteRequests: seq<int>)

  /**
   * `deleteSelectedUsers()`: with nothing selected, nothing happens; otherwise
   * the user is asked, and on confirmation one delete request per selected
   * user goes out, in selection order, and the selection is cleared.
   */
  function DeleteSelectedUsers(p: PageState, confirmed: bool): (out: BulkDelete)
    ensures out.confirmAsked <==> |p.selectedUsers| > 0
    ensures !(out.confirmAsked && confirmed) ==> out.state == p && out.deleteRequests == []
    ensures out.confirmAsked && confirmed ==>
      && out.state == ClearSelection(p)
      && |out.deleteRequests| == |p.selectedUsers|
      && forall i :: 0 <= i < |out.deleteRequests| ==> out.deleteRequests[i] == p.selectedUsers[i].id
  {
    if |p.selectedUsers| == 0 then BulkDelete(p, false, [])
    else if !confirmed then BulkDelete(p, true, [])
    else
      BulkDelete(ClearSelection(p), true, Ids(p.selectedUsers))
  }

  /**
   * With ids kept distinct, a confirmed bulk delete requests each selected
   * id exactly once and no other id.
   */
  lemma BulkDeleteRequestsEachIdOnce(p: PageState, id: int)
    requires NoDuplicateIds(p.selectedUsers)
    ensures multiset(DeleteSelectedUsers(p, true).deleteRequests)[id]
            == if exists i :: 0 <= i < |p.selectedUsers| && p.selectedUsers[i].id == id then 1 else 0
    ensures id in DeleteSelectedUsers(p, true).deleteRequests
            <==> exists i :: 0 <= i < |p.selectedUsers| && p.selectedUsers[i].id == id
  {
    IdsCount(p.selectedUsers, id);
    if |p.selectedUsers| > 0 {
      assert DeleteSelectedUsers(p, true).deleteRequests == Ids(p.selectedUsers);
    }
  }

  /**
   * The card's delete gesture followed by the page's success handler: once
   * confirmed, the emitted id leaves the selection and every other entry
   * stays as often as before; unconfirmed, nothing is emitted.
   */
  lemma CardDeleteDeselects(p: PageState, u: User, confirmed: bool)
    ensures !confirmed ==> OnDelete(u, confirmed).emitted == []
    ensures confirmed ==>
      var q := DeleteUserSucceeded(p, OnDelete(u, confirmed).emitted[0]);
      && |OnDelete(u, confirmed).emitted| == 1
      && !IsUserSelected(q.selectedUsers, u)
      && (forall v: User :: v.id != u.id ==> multiset(q.selectedUsers)[v] == multiset(p.selectedUsers)[v])
  {
  }

  // ---------------------------------------------------------------- the form

  function ShowCreateForm(p: PageState): (q: PageState)
    ensures q.showForm && q.editingUser == None
    ensures q == p.(showForm := true, editingUser := None)
  {
    p.(editingUser := None, showForm := true)
  }

  function EditUser(p: PageState, u: User): (q: PageState)
    ensures q.showForm && q.editingUser == Some(u)
    ensures q == p.(showForm := true, editingUser := Some(u))
  {
    p.(editingUser := Some(u), showForm := true)
  }

  function CloseForm(p: PageState): (q: PageState)
    ensures !q.showForm && q.editingUser == None && !q.saving
    ensures q.searchTerm == p.searchTerm && q.selectedUsers == p.selectedUsers
  {
    p.(showForm := false, editingUser := None, saving := false)
  }

  /** Opening the form in either mode and closing it leaves no trace of the form. */
  lemma FormRoundTrip(p: PageState, u: User)
    ensures CloseForm(ShowCreateForm(p)) == CloseForm(p)
    ensures CloseForm(EditUser(p, u)) == CloseForm(p)
    ensures CloseForm(Initial) == Initial
  {
  }

  datatype SaveRequest = UpdateUser(id: int) | CreateUser

  /** `saveUser(data)` up to the service call: saving is raised; an edit updates, otherwise a user is created. */
  function SaveUser(p: PageState): (out: (PageState, SaveRequest))
    ensures out.0 == p.(saving := true)
    ensures p.editingUser.Some? ==> out.1 == UpdateUser(p.editingUser.value.id)
    ensures p.editingUser.None? ==> out.1 == CreateUser
  {
    (p.(saving := true), if p.editingUser.Some? then UpdateUser(p.editingUser.value.id) else CreateUser)
  }

  /** The service's answer to a save: success closes the form, failure only lowers `saving`. */
  function SaveFinished(p: PageState, succeeded: bool): (q: PageState)
    ensures !q.saving
    ensures succeeded ==> q == CloseForm(p)
    ensures !succeeded ==> q == p.(saving := false)
  {
    if succeeded then CloseForm(p) else p.(saving := false)
  }
}
