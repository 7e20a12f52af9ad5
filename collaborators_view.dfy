/** The collaborator list on the settings page (components/collaborators.tsx):
    the duplicate-username guard on the invite form, the avatar initials,
    and the list updates after an invite, a removal and a status refresh.
    The handlers are asynchronous: each is a Begin step (before the server
    action) and a Complete step (after it). A handler's closure holds the
    `collaborators` and id list of the render in which it was started; that
    capture is the `Snapshot` a Begin step returns. */
module CollaboratorsView {
  import opened Common
  import opened CollaboratorUtils
  import Actions = CollaboratorActions

  // ---------------------------------------------------------------------
  // Pure view rules

  /** `collaborator.githubUsername?.toLowerCase() === username.toLowerCase()`. */
  predicate SameUser(row: Row, username: string) {
    row.githubUsername.Some? && Lower(row.githubUsername.value) == Lower(username)
  }

  /** `isUsernameInList`; the invite button is disabled while it holds. */
  function IsUsernameInList(collaborators: seq<Row>, username: string): (r: bool)
    ensures r <==> exists i :: 0 <= i < |collaborators| && SameUser(collaborators[i], username)
  {
    if collaborators == [] then false
    else
      assert forall i :: 1 <= i < |collaborators| ==> collaborators[i] == collaborators[1..][i - 1];
      SameUser(collaborators[0], username) || IsUsernameInList(collaborators[1..], username)
  }

  lemma {:induction false} LowerIdempotent(s: string)
    ensures Lower(Lower(s)) == Lower(s)
  {
    var l := Lower(s);
    assert forall i :: 0 <= i < |s| ==> Lower(l)[i] == LowerChar(LowerChar(s[i])) == LowerChar(s[i]);
  }

  /** The guard ignores case: typing the name in any case gives the same answer. */
  lemma UsernameGuardIgnoresCase(collaborators: seq<Row>, username: string)
    ensures IsUsernameInList(collaborators, Lower(username)) == IsUsernameInList(collaborators, username)
  {
    LowerIdempotent(username);
  }

  /** `removing.includes(id)` / `refreshing.includes(id)`: the button of a
      row whose request is in flight is disabled. */
  predicate InFlight(ids: seq<int>, id: int) {
    id in ids
  }

  /** `email.split('@')[0]`: the text before the first '@'. */
  function LocalPart(email: string): (r: string)
    ensures |r| <= |email| && r == email[..|r|]
    ensures '@' !in r
    ensures |r| < |email| ==> email[|r|] == '@'
  {
    if email == [] || email[0] == '@' then []
    else [email[0]] + LocalPart(email[1..])
  }

  /** `s.substring(0, 2)`. */
  function FirstTwo(s: string): (r: string)
    ensures |r| == if |s| < 2 then |s| else 2
    ensures r == s[..|r|]
  {
    if |s| < 2 then s else s[..2]
  }

  /** The avatar fallback: the username's first two characters, else those
      of the email's local part, else "??". */
  function Initials(row: Row): (r: string)
    ensures |r| <= 2
    ensures row.githubUsername.Some? && row.githubUsername.value != [] ==>
      r != [] && |r| <= |row.githubUsername.value| && r == row.githubUsername.value[..|r|]
    ensures (!(row.githubUsername.Some? && row.githubUsername.value != [])
             && !(row.email.Some? && row.email.value != [])) ==> r == "??"
    ensures !(row.githubUsername.Some? && row.githubUsername.value != []) && row.email.Some? && row.email.value != [] ==>
      |r| <= |row.email.value| && r == row.email.value[..|r|] && '@' !in r
  {
    if row.githubUsername.Some? && row.githubUsername.value != [] then FirstTwo(row.githubUsername.value)
    else if row.email.Some? && row.email.value != [] then FirstTwo(LocalPart(row.email.value))
    else "??"
  }

  /** An email whose local part is empty gives empty initials rather than "??". */
  lemma EmptyLocalPartGivesNoInitials(row: Row)
    requires !(row.githubUsername.Some? && row.githubUsername.value != [])
    requires row.email.Some? && row.email.value != [] && row.email.value[0] == '@'
    ensures Initials(row) == []
  {
  }

  /** `githubUsername || email`: the name shown on the row and in the
      confirmation dialog; absent when the row has neither. */
  function ShownName(row: Row): (r: Option<string>)
    ensures r.None? <==> !(row.githubUsername.Some? && row.githubUsername.value != []) && row.email.None?
    ensures row.githubUsername.Some? && row.githubUsername.value != [] ==> r == row.githubUsername
  {
    if row.githubUsername.Some? && row.githubUsername.value != [] then row.githubUsername else row.email
  }

  // ---------------------------------------------------------------------
  // List state and its transitions

  datatype ListState = ListState(collaborators: seq<Row>, removing: seq<int>, refreshing: seq<int>, username: string)

  /** What a handler's closure captured at the click. */
  datatype Snapshot = Snapshot(collaborators: seq<Row>, ids: seq<int>)

  /** `ids.filter((i) => i !== id)`. */
  function WithoutId(ids: seq<int>, id: int): (r: seq<int>)
    ensures |r| <= |ids|
    ensures forall x :: x in r <==> x in ids && x != id
  {
    if ids == [] then [] else (if ids[0] == id then [] else [ids[0]]) + WithoutId(ids[1..], id)
  }

  /** Filtering out an id that is not there changes nothing. */
  lemma {:induction false} WithoutAbsent(ids: seq<int>, id: int)
    requires id !in ids
    ensures WithoutId(ids, id) == ids
    decreases |ids|
  {
    if ids != [] {
      WithoutAbsent(ids[1..], id);
      assert ids == [ids[0]] + ids[1..];
    }
  }

  /** `collaborators.filter((c) => c.id !== id)`. */
  function WithoutRowId(rows: seq<Row>, id: int): (r: seq<Row>)
    ensures |r| <= |rows|
    ensures forall row :: row in r <==> row in rows && row.id != id
  {
    if rows == [] then [] else (if rows[0].id == id then [] else [rows[0]]) + WithoutRowId(rows[1..], id)
  }

  /** The add effect: after a result with a message, the returned rows are
      appended and the username field is cleared; an error changes nothing. */
  function AfterAddResult(s: ListState, response: Actions.Response): (r: ListState)
    ensures r.removing == s.removing && r.refreshing == s.refreshing
    ensures |s.collaborators| <= |r.collaborators| && r.collaborators[..|s.collaborators|] == s.collaborators
    ensures response.Message? && response.message != [] ==>
      r.collaborators[|s.collaborators|..] == response.data && r.username == []
    ensures !(response.Message? && response.message != []) ==> r == s
  {
    if response.Message? && response.message != [] then
      var appended := s.collaborators + response.data;
      assert appended[|s.collaborators|..] == response.data;
      s.(collaborators := appended, username := [])
    else s
  }

  /** An invited user blocks a second invite of the same name in any case. */
  lemma InvitedUserBlocksReinvite(s: ListState, response: Actions.Response, username: string)
    requires response.Message? && response.message != []
    requires exists i :: 0 <= i < |response.data| && response.data[i].githubUsername == Some(username)
    ensures IsUsernameInList(AfterAddResult(s, response).collaborators, username)
    ensures IsUsernameInList(AfterAddResult(s, response).collaborators, Lower(username))
  {
    var i :| 0 <= i < |response.data| && response.data[i].githubUsername == Some(username);
    var all := AfterAddResult(s, response).collaborators;
    assert all[|s.collaborators| + i] == response.data[i];
    UsernameGuardIgnoresCase(all, username);
  }

  /** The result of the remove action as the handler sees it: the returned
      object, or an exception. */
  datatype RemoveOutcome = RemoveReturned(response: Actions.Response) | RemoveThrew(message: string)

  /** `!removed.error` on a returned object. */
  predicate RemoveSucceeded(outcome: RemoveOutcome) {
    outcome.RemoveReturned? && !(outcome.response.Error? && outcome.response.message != [])
  }

  /** `setRemoving([...removing, id])`, capturing the render's arrays. */
  function RemoveStarted(s: ListState, id: int): (r: (ListState, Snapshot))
    ensures r.0 == s.(removing := s.removing + [id])
    ensures r.1 == Snapshot(s.collaborators, s.removing)
  {
    (s.(removing := s.removing + [id]), Snapshot(s.collaborators, s.removing))
  }

  /** The end of `handleConfirmRemove` as written: both arrays are rebuilt
      from the captured ones, not from the current state. */
  function RemoveFinished(s: ListState, captured: Snapshot, id: int, outcome: RemoveOutcome): (r: ListState)
    ensures r.refreshing == s.refreshing && r.username == s.username
    ensures !InFlight(r.removing, id)
    ensures RemoveSucceeded(outcome) ==> r.collaborators == WithoutRowId(captured.collaborators, id)
    ensures !RemoveSucceeded(outcome) ==> r.collaborators == s.collaborators
  {
    s.(collaborators := if RemoveSucceeded(outcome) then WithoutRowId(captured.collaborators, id) else s.collaborators,
       removing := WithoutId(captured.ids, id))
  }

  /** The same step reading the current arrays (functional updates). */
  function RemoveFinishedLatest(s: ListState, id: int, outcome: RemoveOutcome): (r: ListState)
    ensures r.refreshing == s.refreshing && r.username == s.username
    ensures forall x :: x in r.removing <==> x in s.removing && x != id
    ensures RemoveSucceeded(outcome) ==> r.collaborators == WithoutRowId(s.collaborators, id)
    ensures !RemoveSucceeded(outcome) ==> r.collaborators == s.collaborators
  {
    s.(collaborators := if RemoveSucceeded(outcome) then WithoutRowId(s.collaborators, id) else s.collaborators,
       removing := WithoutId(s.removing, id))
  }

  /** One removal on its own: the id is in flight between the two steps and
      gone afterwards; success drops exactly the rows with that id, a
      returned error or an exception leaves the list as it was. */
  lemma RemoveCycle(s: ListState, id: int, outcome: RemoveOutcome)
    requires !InFlight(s.removing, id)
    ensures var (started, captured) := RemoveStarted(s, id);
      var done := RemoveFinished(started, captured, id, outcome);
      InFlight(started.removing, id)
      && done.removing == s.removing
      && (RemoveSucceeded(outcome) ==> forall row :: row in done.collaborators <==> row in s.collaborators && row.id != id)
      && (!RemoveSucceeded(outcome) ==> done.collaborators == s.collaborators)
  {
    var (started, captured) := RemoveStarted(s, id);
    assert captured == Snapshot(s.collaborators, s.removing);
    WithoutAbsent(s.removing, id);
  }

  /** Two removals started one after the other and finishing in order, both
      successful: as written, the second completion restores the first row
      and leaves the first id in flight for good. */
  lemma OverlappingRemovalsAsWritten(s: ListState, a: int, b: int, rowA: Row, done: Actions.Response)
    requires a != b && rowA in s.collaborators && rowA.id == a
    requires !InFlight(s.removing, a) && !InFlight(s.removing, b)
    requires done.Message?
    ensures var (s1, capturedA) := RemoveStarted(s, a);
      var (s2, capturedB) := RemoveStarted(s1, b);
      var s3 := RemoveFinished(s2, capturedA, a, RemoveReturned(done));
      var s4 := RemoveFinished(s3, capturedB, b, RemoveReturned(done));
      rowA in s4.collaborators && InFlight(s4.removing, a)
  {
    var (s1, capturedA) := RemoveStarted(s, a);
    var (s2, capturedB) := RemoveStarted(s1, b);
    assert capturedB.ids == s.removing + [a];
    assert a in capturedB.ids;
  }

  /** With the current arrays, both rows are gone and nothing stays in flight. */
  lemma OverlappingRemovalsLatest(s: ListState, a: int, b: int, done: Actions.Response)
    requires !InFlight(s.removing, a) && !InFlight(s.removing, b)
    requires done.Message?
    ensures var (s1, _) := RemoveStarted(s, a);
      var (s2, _) := RemoveStarted(s1, b);
      var s3 := RemoveFinishedLatest(s2, a, RemoveReturned(done));
      var s4 := RemoveFinishedLatest(s3, b, RemoveReturned(done));
      (forall row :: row in s4.collaborators <==> row in s.collaborators && row.id != a && row.id != b)
      && (forall x :: x in s4.removing <==> x in s.removing)
  {
  }

  /** The result of the status action as the handler sees it. */
  datatype RefreshOutcome = RefreshReturned(response: Actions.StatusResponse) | RefreshThrew(message: string)

  /** A returned, non-empty status with no error: the one case that updates
      the list. */
  predicate StatusReturned(outcome: RefreshOutcome) {
    outcome.RefreshReturned? && outcome.response.StatusOf? && outcome.response.status != []
  }

  function RefreshStarted(s: ListState, id: int): (r: (ListState, Snapshot))
    ensures r.0 == s.(refreshing := s.refreshing + [id])
    ensures r.1 == Snapshot(s.collaborators, s.refreshing)
  {
    (s.(refreshing := s.refreshing + [id]), Snapshot(s.collaborators, s.refreshing))
  }

  /** The end of `handleRefreshStatus` as written, from the captured arrays. */
  function RefreshFinished(s: ListState, captured: Snapshot, id: int, outcome: RefreshOutcome): (r: ListState)
    ensures r.removing == s.removing && r.username == s.username
    ensures !InFlight(r.refreshing, id)
    ensures StatusReturned(outcome) ==>
      r.collaborators == WithStatus(captured.collaborators, id, outcome.response.status)
    ensures !StatusReturned(outcome) ==> r.collaborators == s.collaborators
  {
    s.(collaborators := if StatusReturned(outcome) then WithStatus(captured.collaborators, id, outcome.response.status)
                        else s.collaborators,
       refreshing := WithoutId(captured.ids, id))
  }

  /** One refresh on its own: only the status of the rows with the id
      changes, and only when a status came back. */
  lemma RefreshCycle(s: ListState, id: int, outcome: RefreshOutcome)
    requires !InFlight(s.refreshing, id)
    ensures var (started, captured) := RefreshStarted(s, id);
      var done := RefreshFinished(started, captured, id, outcome);
      InFlight(started.refreshing, id)
      && done.refreshing == s.refreshing
      && |done.collaborators| == |s.collaborators|
      && (forall i :: 0 <= i < |s.collaborators| && s.collaborators[i].id != id ==> done.collaborators[i] == s.collaborators[i])
      && (forall i :: 0 <= i < |s.collaborators| && s.collaborators[i].id == id ==>
            done.collaborators[i] == if StatusReturned(outcome)
              then s.collaborators[i].(invitationStatus := outcome.response.status)
              else s.collaborators[i])
  {
    var (started, captured) := RefreshStarted(s, id);
    assert captured == Snapshot(s.collaborators, s.refreshing);
    WithoutAbsent(s.refreshing, id);
  }

  /** The same step reading the current arrays (functional updates). */
  function RefreshFinishedLatest(s: ListState, id: int, outcome: RefreshOutcome): (r: ListState)
    ensures r.removing == s.removing && r.username == s.username
    ensures forall x :: x in r.refreshing <==> x in s.refreshing && x != id
    ensures StatusReturned(outcome) ==> r.collaborators == WithStatus(s.collaborators, id, outcome.response.status)
    ensures !StatusReturned(outcome) ==> r.collaborators == s.collaborators
  {
    s.(collaborators := if StatusReturned(outcome) then WithStatus(s.collaborators, id, outcome.response.status)
                        else s.collaborators,
       refreshing := WithoutId(s.refreshing, id))
  }

  /** Two refreshes started one after the other and finishing in order, both
      returning a status: as written, the second completion rebuilds the
      list it captured, so the first row keeps its old status, and the first
      id stays in flight for good. */
  lemma OverlappingRefreshesAsWritten(s: ListState, a: int, b: int, rowA: Row, sa: Actions.StatusResponse, sb: Actions.StatusResponse)
    requires a != b && rowA in s.collaborators && rowA.id == a
    requires !InFlight(s.refreshing, a) && !InFlight(s.refreshing, b)
    requires sa.StatusOf? && sa.status != [] && sb.StatusOf? && sb.status != []
    ensures var (s1, capturedA) := RefreshStarted(s, a);
      var (s2, capturedB) := RefreshStarted(s1, b);
      var s3 := RefreshFinished(s2, capturedA, a, RefreshReturned(sa));
      var s4 := RefreshFinished(s3, capturedB, b, RefreshReturned(sb));
      rowA in s4.collaborators && InFlight(s4.refreshing, a)
  {
    var (s1, capturedA) := RefreshStarted(s, a);
    var (s2, capturedB) := RefreshStarted(s1, b);
    assert capturedB == Snapshot(s.collaborators, s.refreshing + [a]);
    var i :| 0 <= i < |s.collaborators| && s.collaborators[i] == rowA;
    assert WithStatus(s.collaborators, b, sb.status)[i] == rowA;
  }

  /** With the current arrays, both rows get their new status and nothing
      stays in flight. */
  lemma OverlappingRefreshesLatest(s: ListState, a: int, b: int, sa: Actions.StatusResponse, sb: Actions.StatusResponse)
    requires a != b && !InFlight(s.refreshing, a) && !InFlight(s.refreshing, b)
    requires sa.StatusOf? && sa.status != [] && sb.StatusOf? && sb.status != []
    ensures var s1 := RefreshStarted(s, a).0;
      var s2 := RefreshStarted(s1, b).0;
      var s4 := RefreshFinishedLatest(RefreshFinishedLatest(s2, a, RefreshReturned(sa)), b, RefreshReturned(sb));
      |s4.collaborators| == |s.collaborators|
      && (forall i :: 0 <= i < |s.collaborators| ==>
            s4.collaborators[i]
              == if s.collaborators[i].id == a then s.collaborators[i].(invitationStatus := sa.status)
                 else if s.collaborators[i].id == b then s.collaborators[i].(invitationStatus := sb.status)
                 else s.collaborators[i])
      && (forall x :: x in s4.refreshing <==> x in s.refreshing)
  {
  }

  // ---------------------------------------------------------------------
  // The component's state, with the list updates reading the current
  // arrays (the as-written steps above capture them at the click)

  class CollaboratorList {
    var collaborators: seq<Row>
    var removing: seq<int>
    var refreshing: seq<int>
    var username: string

    function State(): ListState
      reads this
    {
      ListState(collaborators, removing, refreshing, username)
    }

    constructor ()
      ensures State() == ListState([], [], [], [])
    {
      collaborators, removing, refreshing, username := [], [], [], [];
    }

    /** The effect on a new add-action result. */
    method OnAddResult(response: Actions.Response)
      modifies this
      ensures State() == AfterAddResult(old(State()), response)
    {
      if response.Message? && response.message != [] {
        if |response.data| > 0 {
          collaborators := collaborators + response.data;
        }
        username := [];
      }
    }

    method BeginRemove(id: int)
      modifies this
      ensures State() == RemoveStarted(old(State()), id).0
    {
      removing := removing + [id];
    }

    method CompleteRemove(id: int, outcome: RemoveOutcome)
      modifies this
      ensures State() == RemoveFinishedLatest(old(State()), id, outcome)
    {
      if RemoveSucceeded(outcome) {
        collaborators := WithoutRowId(collaborators, id);
      }
      removing := WithoutId(removing, id);
    }

    method BeginRefresh(id: int)
      modifies this
      ensures State() == RefreshStarted(old(State()), id).0
    {
      refreshing := refreshing + [id];
    }

    method CompleteRefresh(id: int, outcome: RefreshOutcome)
      modifies this
      ensures State() == RefreshFinishedLatest(old(State()), id, outcome)
    {
      if StatusReturned(outcome) {
        collaborators := WithStatus(collaborators, id, outcome.response.status);
      }
      refreshing := WithoutId(refreshing, id);
    }
  }
}
