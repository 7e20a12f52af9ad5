/** The collaborator server actions (lib/actions/collaborator.ts): invite,
    remove, and refresh an invitation's status. Each runs a fixed sequence of
    checks, any of which ends it with `{ error: message }`, and then changes
    the collaborator table. Sign-in, token, installation lookups and GitHub
    replies are inputs. */
module CollaboratorActions {
  import opened Common
  import opened CollaboratorUtils

  /** The signed-in user: the id the row records and the GitHub id. */
  datatype User = User(id: string, githubId: Option<int>)

  /** `user && user.githubId`. */
  predicate SignedInWithGitHub(user: Option<User>) {
    user.Some? && user.value.githubId.Some? && user.value.githubId.value != 0
  }

  /** `!token`: a missing or empty token. */
  predicate NoToken(token: Option<string>) {
    token.None? || token.value == []
  }

  /** `z.string().trim().min(1)`: a present value that is not blank, trimmed. */
  function Validated(v: Option<string>): (r: Option<string>)
    ensures r.Some? <==> v.Some? && Trim(v.value) != []
    ensures r.Some? ==> r.value == Trim(v.value)
  {
    if v.Some? && Trim(v.value) != [] then Some(Trim(v.value)) else None
  }

  function ValueOr(o: Option<string>): string {
    if o.Some? then o.value else []
  }

  datatype Installation = Installation(id: int)
  datatype InstallationRepo = InstallationRepo(id: int, ownerId: int, ownerType: string, ownerLogin: string, name: string)

  /** What an action returns: a message (with the rows it inserted), or an
      error. Failures are returned, never thrown. */
  datatype Response = Message(message: string, data: seq<Row>) | Error(message: string)

  // ---------------------------------------------------------------------
  // handleAddCollaborator

  datatype AddInputs = AddInputs(
    user: Option<User>, owner: Option<string>, repo: Option<string>, username: Option<string>,
    token: Option<string>, githubLogins: set<string>,
    installations: seq<Installation>, installationRepos: seq<InstallationRepo>,
    inviteReply: Reply, invitationId: Option<int>, newId: int)

  /** The user check as written: line 47 passes `(token, username)` to a
      helper whose one parameter is the name, so GitHub is asked about the
      token. The action below asks about the username instead. */
  predicate UserCheckAsWritten(logins: set<string>, token: string, username: string) {
    UserExists(logins, token)
  }

  /** As written, an existing login is reported as not found whenever the
      token is not itself a login. */
  lemma ExistingUserNotFoundAsWritten()
    ensures UserExists({"octocat"}, "octocat")
    ensures !UserCheckAsWritten({"octocat"}, "ghu_0123", "octocat")
  {
  }

  /** One check of the sequence: whether it passes, and its error. */
  datatype Check = Check(passes: bool, message: string)

  /** A row for this repository and user already exists. */
  predicate AlreadyInvited(rows: seq<Row>, ownerId: int, repoId: int, username: string) {
    exists i :: 0 <= i < |rows| && rows[i].ownerId == ownerId && rows[i].repoId == repoId && rows[i].githubUsername == Some(username)
  }

  /** The form fields after validation. */
  datatype Fields = Fields(owner: Option<string>, repo: Option<string>, username: Option<string>)

  function Validate(input: AddInputs): (v: Fields)
    ensures v.owner == Validated(input.owner) && v.repo == Validated(input.repo) && v.username == Validated(input.username)
  {
    Fields(Validated(input.owner), Validated(input.repo), Validated(input.username))
  }

  /** The eight checks, in the order the action runs them. */
  function AddChecks(input: AddInputs, v: Fields, rows: seq<Row>): (r: seq<Check>)
    ensures |r| == 8
  {
    var owner := ValueOr(v.owner);
    var repo := ValueOr(v.repo);
    var username := ValueOr(v.username);
    var repos := input.installationRepos;
    [ Check(SignedInWithGitHub(input.user), "You must be signed in with GitHub to invite collaborators."),
      Check(v.owner.Some? && v.repo.Some?, "Invalid owner and/or repo"),
      Check(v.username.Some?, "Invalid GitHub username"),
      Check(!NoToken(input.token), "Token not found"),
      Check(UserExists(input.githubLogins, username), "GitHub user \"" + username + "\" not found"),
      Check(|input.installations| == 1, "\"" + owner + "\" is not part of your GitHub App installations"),
      Check(|repos| == 1, "\"" + owner + "/" + repo + "\" is not part of your GitHub App installations"),
      Check(!(|repos| == 1 && AlreadyInvited(rows, repos[0].ownerId, repos[0].id, username)),
        username + " is already invited to \"" + owner + "/" + repo + "\".") ]
  }

  /** The error of the first check that fails, if any. */
  function FirstFailure(checks: seq<Check>): (r: Option<string>)
    ensures r.None? <==> forall i :: 0 <= i < |checks| ==> checks[i].passes
    ensures r.Some? ==> (exists i :: 0 <= i < |checks| && !checks[i].passes && checks[i].message == r.value
                           && forall j :: 0 <= j < i ==> checks[j].passes)
  {
    if checks == [] then None
    else if !checks[0].passes then Some(checks[0].message)
    else
      var r := FirstFailure(checks[1..]);
      assert forall i :: 1 <= i < |checks| ==> checks[i] == checks[1..][i - 1];
      if r.Some? then
        var i :| 0 <= i < |checks[1..]| && !checks[1..][i].passes && checks[1..][i].message == r.value
          && forall j :: 0 <= j < i ==> checks[1..][j].passes;
        assert !checks[i + 1].passes && checks[i + 1].message == r.value;
        r
      else r
  }

  /** Every early return of the action is passed. */
  predicate AddAllowed(input: AddInputs, v: Fields, rows: seq<Row>) {
    SignedInWithGitHub(input.user)
    && v.owner.Some? && v.repo.Some? && v.username.Some?
    && !NoToken(input.token) && UserExists(input.githubLogins, v.username.value)
    && |input.installations| == 1 && |input.installationRepos| == 1
    && !AlreadyInvited(rows, input.installationRepos[0].ownerId, input.installationRepos[0].id, v.username.value)
  }

  /** The early returns of `handleAddCollaborator`, in its order. */
  function AddGuard(input: AddInputs, v: Fields, rows: seq<Row>): (r: Option<string>)
    ensures r.None? <==> AddAllowed(input, v, rows)
  {
    if !SignedInWithGitHub(input.user) then Some("You must be signed in with GitHub to invite collaborators.")
    else if v.owner.None? || v.repo.None? then Some("Invalid owner and/or repo")
    else
      var owner := v.owner.value;
      var repo := v.repo.value;
      if v.username.None? then Some("Invalid GitHub username")
      else
        var username := v.username.value;
        if NoToken(input.token) then Some("Token not found")
        else if !UserExists(input.githubLogins, username) then Some("GitHub user \"" + username + "\" not found")
        else if |input.installations| != 1 then
          Some("\"" + owner + "\" is not part of your GitHub App installations")
        else if |input.installationRepos| != 1 then
          Some("\"" + owner + "/" + repo + "\" is not part of your GitHub App installations")
        else if AlreadyInvited(rows, input.installationRepos[0].ownerId, input.installationRepos[0].id, username) then
          Some(username + " is already invited to \"" + owner + "/" + repo + "\".")
        else None
  }

  /** The first failing check's error is the result. */
  lemma {:induction false} FirstFailureAt(checks: seq<Check>, i: int)
    requires 0 <= i < |checks| && !checks[i].passes
    requires forall j :: 0 <= j < i ==> checks[j].passes
    ensures FirstFailure(checks) == Some(checks[i].message)
    decreases i
  {
    if i > 0 {
      assert forall j :: 0 <= j < i - 1 ==> checks[1..][j] == checks[j + 1];
      FirstFailureAt(checks[1..], i - 1);
    }
  }

  /** The guard is the first failure of the checks in the listed order. */
  lemma {:induction false} GuardIsFirstFailure(input: AddInputs, v: Fields, rows: seq<Row>)
    ensures AddGuard(input, v, rows) == FirstFailure(AddChecks(input, v, rows))
  {
    var c := AddChecks(input, v, rows);
    if c[0].passes && c[1].passes && c[2].passes && c[3].passes {
      GuardLateChecks(input, v, rows);
    } else {
      GuardEarlyChecks(input, v, rows);
    }
  }

  lemma {:induction false} GuardEarlyChecks(input: AddInputs, v: Fields, rows: seq<Row>)
    requires var c := AddChecks(input, v, rows); !(c[0].passes && c[1].passes && c[2].passes && c[3].passes)
    ensures AddGuard(input, v, rows) == FirstFailure(AddChecks(input, v, rows))
  {
    var c := AddChecks(input, v, rows);
    var k := if !c[0].passes then 0 else if !c[1].passes then 1 else if !c[2].passes then 2 else 3;
    forall j | 0 <= j < k
      ensures c[j].passes
    {
      if j == 0 {} else if j == 1 {} else {}
    }
    FirstFailureAt(c, k);
  }

  lemma {:induction false} GuardLateChecks(input: AddInputs, v: Fields, rows: seq<Row>)
    requires var c := AddChecks(input, v, rows); c[0].passes && c[1].passes && c[2].passes && c[3].passes
    ensures AddGuard(input, v, rows) == FirstFailure(AddChecks(input, v, rows))
  {
    var c := AddChecks(input, v, rows);
    var k := if !c[4].passes then 4 else if !c[5].passes then 5
      else if !c[6].passes then 6 else if !c[7].passes then 7 else 8;
    forall j | 0 <= j < k
      ensures c[j].passes
    {
      if j == 0 {} else if j == 1 {} else if j == 2 {} else if j == 3 {}
      else if j == 4 {} else if j == 5 {} else if j == 6 {} else {}
    }
    if k < 8 {
      FirstFailureAt(c, k);
    }
  }

  /** What the action did: its response, the invitation it sent and the row
      it inserted. */
  datatype AddResult = AddResult(response: Response, sent: Option<InviteRequest>, inserted: Option<Row>)

  /** After the checks: the invitation with the default permission, then on
      success a pending row for the user in the installed repository. */
  function SendInvite(input: AddInputs, v: Fields, rows: seq<Row>): (r: AddResult)
    requires AddAllowed(input, v, rows)
    ensures r.sent == Some(InviteRequest(v.owner.value, v.repo.value, v.username.value, Push))
    ensures r.inserted.Some? <==> input.inviteReply.Ok?
    ensures input.inviteReply.Failed? ==>
      r.response == Error(OrElse(input.inviteReply.message, "Failed to invite collaborator"))
    ensures r.inserted.Some? ==>
      var row := r.inserted.value;
      var target := input.installationRepos[0];
      r.response == Message(r.response.message, [row])
      && row.invitationStatus == "pending"
      && row.githubUsername == v.username
      && (row.kind == "user" <==> target.ownerType == "User")
      && (row.kind == "org" <==> target.ownerType != "User")
      && row.ownerId == target.ownerId && row.repoId == target.id
      && row.invitationId == input.invitationId
  {
    var owner := v.owner.value;
    var repo := v.repo.value;
    var username := v.username.value;
    var target := input.installationRepos[0];
    var (request, invite) := Invite(owner, repo, username, None, input.inviteReply, input.invitationId);
    if invite.InviteThrows? then AddResult(Error(invite.message), Some(request), None)
    else
      var row := Row(input.newId, if target.ownerType == "User" then "user" else "org",
        input.installations[0].id, target.ownerId, target.id, target.ownerLogin, target.name,
        Some(username), None, invite.invitationId, "pending", input.user.value.id);
      AddResult(Message(username + " invited to \"" + owner + "/" + repo + "\". They will receive a notification on GitHub.", [row]),
        Some(request), Some(row))
  }

  /** `handleAddCollaborator` as a function of its inputs and the table:
      the form fields are trimmed first, and the trimmed values are used from
      then on. */
  function AddCollaborator(input: AddInputs, rows: seq<Row>): (r: AddResult)
    ensures r.sent.Some? <==> AddAllowed(input, Validate(input), rows)
    ensures r.inserted.Some? <==> AddAllowed(input, Validate(input), rows) && input.inviteReply.Ok?
    ensures r.response.Error? <==> r.inserted.None?
  {
    var v := Validate(input);
    var guard := AddGuard(input, v, rows);
    if guard.Some? then AddResult(Error(guard.value), None, None) else SendInvite(input, v, rows)
  }

  /** The checks decide in order: the first failing one is the error, and
      nothing is sent or inserted. */
  lemma {:induction false} AddFollowsChecks(input: AddInputs, rows: seq<Row>)
    ensures var failure := FirstFailure(AddChecks(input, Validate(input), rows));
      failure.Some? ==> AddCollaborator(input, rows) == AddResult(Error(failure.value), None, None)
  {
    GuardIsFirstFailure(input, Validate(input), rows);
  }

  /** Inviting the same user to the same repository twice fails the second
      time, whatever GitHub would reply. */
  lemma {:induction false} SecondInviteRejected(input: AddInputs, rows: seq<Row>, again: AddInputs)
    requires AddCollaborator(input, rows).inserted.Some?
    requires again == input.(inviteReply := again.inviteReply, invitationId := again.invitationId, newId := again.newId)
    ensures var v := Validate(input);
      AddCollaborator(again, rows + [AddCollaborator(input, rows).inserted.value])
        == AddResult(Error(v.username.value + " is already invited to \"" + v.owner.value + "/" + v.repo.value + "\"."), None, None)
  {
    var v := Validate(input);
    assert Validate(again) == v;
    var row := AddCollaborator(input, rows).inserted.value;
    var after := rows + [row];
    assert after[|rows|] == row;
    assert AlreadyInvited(after, row.ownerId, row.repoId, v.username.value);
  }

  /** With the username looked up, the token matters only by being present:
      any other token gives the same outcome, and a login GitHub does not
      know is refused before anything is sent. */
  lemma {:induction false} UserCheckIgnoresToken(input: AddInputs, rows: seq<Row>, t: string)
    requires input.token.Some? && input.token.value != [] && t != []
    ensures AddCollaborator(input.(token := Some(t)), rows) == AddCollaborator(input, rows)
    ensures var v := Validate(input);
      v.username.Some? && !UserExists(input.githubLogins, v.username.value) ==> AddCollaborator(input, rows).sent.None?
  {
    var other := input.(token := Some(t));
    var v := Validate(input);
    assert Validate(other) == v;
    assert AddGuard(other, v, rows) == AddGuard(input, v, rows);
    if AddGuard(input, v, rows).None? {
      assert SendInvite(other, v, rows) == SendInvite(input, v, rows);
    }
    UnknownLoginRefused(input, rows);
  }

  lemma UnknownLoginRefused(input: AddInputs, rows: seq<Row>)
    ensures var v := Validate(input);
      v.username.Some? && !UserExists(input.githubLogins, v.username.value) ==> AddCollaborator(input, rows).sent.None?
  {
  }

  /** The action against the table: the row is added exactly when the
      invitation went out. */
  method HandleAddCollaborator(table: CollaboratorTable, input: AddInputs) returns (response: Response)
    modifies table
    ensures var r := AddCollaborator(input, old(table.rows));
      response == r.response
      && table.rows == old(table.rows) + (if r.inserted.Some? then [r.inserted.value] else [])
  {
    var r := AddCollaborator(input, table.rows);
    if r.inserted.Some? {
      table.rows := table.rows + [r.inserted.value];
    }
    response := r.response;
  }

  // ---------------------------------------------------------------------
  // handleRemoveCollaborator

  /** `findFirst` by id. */
  function FindById(rows: seq<Row>, id: int): (r: Option<Row>)
    ensures r.None? <==> forall i :: 0 <= i < |rows| ==> rows[i].id != id
    ensures r.Some? ==> r.value in rows && r.value.id == id
  {
    if rows == [] then None
    else if rows[0].id == id then Some(rows[0])
    else
      var r := FindById(rows[1..], id);
      assert forall i :: 1 <= i < |rows| ==> rows[i] == rows[1..][i - 1];
      r
  }

  /** The GitHub request removal makes; its result is not looked at. */
  datatype RemoteCall = CancelCall(invitationId: int) | RemoveCall(username: string)

  /** `collaborator.invitationId && status === "pending"`. */
  predicate CancelsInvitation(row: Row) {
    row.invitationId.Some? && row.invitationId.value != 0 && row.invitationStatus == "pending"
  }

  /** `collaborator.githubUsername && status === "accepted"`. */
  predicate RemovesCollaborator(row: Row) {
    row.githubUsername.Some? && row.githubUsername.value != [] && row.invitationStatus == "accepted"
  }

  function RemoteCalls(row: Row): (r: seq<RemoteCall>)
    ensures |r| <= 1
    ensures (r != [] && r[0].CancelCall?) <==> CancelsInvitation(row)
    ensures (r != [] && r[0].RemoveCall?) <==> RemovesCollaborator(row)
  {
    (if CancelsInvitation(row) then [CancelCall(row.invitationId.value)] else [])
    + (if RemovesCollaborator(row) then [RemoveCall(row.githubUsername.value)] else [])
  }

  /** The delete's filter: the row with the id, in this repository. */
  predicate Deletes(row: Row, id: int, repoId: int) {
    row.id == id && row.repoId == repoId
  }

  function WithoutRow(rows: seq<Row>, id: int, repoId: int): (r: seq<Row>)
    ensures |r| <= |rows|
    ensures forall row :: row in r <==> row in rows && !Deletes(row, id, repoId)
  {
    if rows == [] then []
    else (if Deletes(rows[0], id, repoId) then [] else [rows[0]]) + WithoutRow(rows[1..], id, repoId)
  }

  /** Nothing was deleted exactly when no row matched the filter. */
  lemma {:induction false} NothingDeletedMeansNoMatch(rows: seq<Row>, id: int, repoId: int)
    ensures |WithoutRow(rows, id, repoId)| == |rows| <==> forall i :: 0 <= i < |rows| ==> !Deletes(rows[i], id, repoId)
    decreases |rows|
  {
    if rows != [] {
      NothingDeletedMeansNoMatch(rows[1..], id, repoId);
      assert forall i :: 1 <= i < |rows| ==> rows[i] == rows[1..][i - 1];
      if Deletes(rows[0], id, repoId) {
        assert |WithoutRow(rows, id, repoId)| <= |rows| - 1;
      }
    }
  }

  /** The name the confirmation uses: username, else email, else "Collaborator". */
  function DisplayName(row: Row): (r: string)
    ensures r != []
    ensures row.githubUsername.Some? && row.githubUsername.value != [] ==> r == row.githubUsername.value
  {
    OrElse(row.githubUsername, OrElse(row.email, "Collaborator"))
  }

  datatype RemoveInputs = RemoveInputs(
    user: Option<User>, token: Option<string>, collaboratorId: int, owner: string, repo: string,
    installations: seq<Installation>, installationRepos: seq<InstallationRepo>)

  datatype RemoveResult = RemoveResult(response: Response, remote: seq<RemoteCall>, rows: seq<Row>)

  /** `handleRemoveCollaborator` as a function of its inputs and the table. */
  function RemoveCollaboratorAction(input: RemoveInputs, rows: seq<Row>): (r: RemoveResult)
    ensures r.rows != rows ==> r.response.Message?
    ensures r.remote != [] ==> FindById(rows, input.collaboratorId).Some?
  {
    if !SignedInWithGitHub(input.user) then RemoveResult(Error("You must be signed in with GitHub to manage collaborators."), [], rows)
    else if NoToken(input.token) then RemoveResult(Error("Token not found"), [], rows)
    else
      var found := FindById(rows, input.collaboratorId);
      if found.None? then RemoveResult(Error("Collaborator not found"), [], rows)
      else if |input.installations| != 1 then
        RemoveResult(Error("\"" + input.owner + "\" is not part of your GitHub App installations"), [], rows)
      else if |input.installationRepos| != 1 then
        RemoveResult(Error("\"" + input.owner + "/" + input.repo + "\" is not part of your GitHub App installations"), [], rows)
      else
        var row := found.value;
        var remote := RemoteCalls(row);
        var remaining := WithoutRow(rows, input.collaboratorId, input.installationRepos[0].id);
        if |remaining| == |rows| then
          assert remaining == rows by {
            NothingDeletedMeansNoMatch(rows, input.collaboratorId, input.installationRepos[0].id);
            WithoutRowKeepsAll(rows, input.collaboratorId, input.installationRepos[0].id);
          }
          RemoveResult(Error("Failed to delete collaborator"), remote, rows)
        else
          RemoveResult(Message(DisplayName(row) + " removed from \"" + input.owner + "/" + input.repo + "\".", []), remote, remaining)
  }

  lemma {:induction false} WithoutRowKeepsAll(rows: seq<Row>, id: int, repoId: int)
    requires forall i :: 0 <= i < |rows| ==> !Deletes(rows[i], id, repoId)
    ensures WithoutRow(rows, id, repoId) == rows
    decreases |rows|
  {
    if rows != [] {
      assert forall i :: 1 <= i < |rows| ==> rows[i] == rows[1..][i - 1];
      WithoutRowKeepsAll(rows[1..], id, repoId);
      assert rows == [rows[0]] + rows[1..];
    }
  }

  /** A pending invitation is cancelled and an accepted collaborator
      removed, never both. */
  lemma {:induction false} RemoteCallFollowsStatus(input: RemoveInputs, rows: seq<Row>)
    requires SignedInWithGitHub(input.user) && !NoToken(input.token)
    requires FindById(rows, input.collaboratorId).Some?
    requires |input.installations| == 1 && |input.installationRepos| == 1
    ensures var row := FindById(rows, input.collaboratorId).value;
      RemoveCollaboratorAction(input, rows).remote == RemoteCalls(row)
      && !(CancelsInvitation(row) && RemovesCollaborator(row))
  {
    var row := FindById(rows, input.collaboratorId).value;
    if CancelsInvitation(row) {
      assert row.invitationStatus == "pending";
      assert row.invitationStatus[0] == 'p';
    }
  }

  /** The table loses exactly the rows with the id in the installed
      repository, and the action fails exactly when there were none. */
  lemma {:induction false} RemoveDeletesScoped(input: RemoveInputs, rows: seq<Row>)
    requires SignedInWithGitHub(input.user) && !NoToken(input.token)
    requires FindById(rows, input.collaboratorId).Some?
    requires |input.installations| == 1 && |input.installationRepos| == 1
    ensures var r := RemoveCollaboratorAction(input, rows);
      var repoId := input.installationRepos[0].id;
      (r.response.Message? ==> r.rows == WithoutRow(rows, input.collaboratorId, repoId))
      && (r.response.Error? <==> forall i :: 0 <= i < |rows| ==> !Deletes(rows[i], input.collaboratorId, repoId))
  {
    var repoId := input.installationRepos[0].id;
    NothingDeletedMeansNoMatch(rows, input.collaboratorId, repoId);
  }

  method HandleRemoveCollaborator(table: CollaboratorTable, input: RemoveInputs)
    returns (response: Response, remote: seq<RemoteCall>)
    modifies table
    ensures var r := RemoveCollaboratorAction(input, old(table.rows));
      response == r.response && remote == r.remote && table.rows == r.rows
  {
    var r := RemoveCollaboratorAction(input, table.rows);
    table.rows := r.rows;
    response, remote := r.response, r.remote;
  }

  // ---------------------------------------------------------------------
  // checkInvitationStatus

  /** `{ status }` or `{ error }`. The helper's error message is not passed
      on: an error comes back as the status "error" alone. */
  datatype StatusResponse = StatusOf(status: string) | StatusFailure(message: string)

  /** The guards before the helper runs. */
  function StatusGuard(user: Option<User>, token: Option<string>, rows: seq<Row>, collaboratorId: int): (r: Option<string>)
    ensures r.None? ==> FindById(rows, collaboratorId).Some? && FindById(rows, collaboratorId).value.invitationId.Some?
  {
    if !SignedInWithGitHub(user) then Some("You must be signed in with GitHub.")
    else if NoToken(token) then Some("Token not found")
    else
      var found := FindById(rows, collaboratorId);
      if found.None? then Some("Collaborator not found")
      else if found.value.invitationId.None? || found.value.invitationId.value == 0 then Some("No invitation found for this collaborator")
      else None
  }

  /** The table after the status check: the helper's write on the row with
      the invitation id, then the action's own write on the row with the
      collaborator id, both only for accepted or declined. */
  function RowsAfterCheck(rows: seq<Row>, collaboratorId: int, invitationId: int, lookup: Reply, check: Reply): seq<Row> {
    var decision := ClassifyInvitation(lookup, rows, invitationId, check);
    var afterHelper := if decision.write.Some? then WithStatus(rows, decision.write.value.0, decision.write.value.1) else rows;
    if decision.status == Accepted || decision.status == Declined then
      WithStatus(afterHelper, collaboratorId, StatusName(decision.status))
    else afterHelper
  }

  /** The table changes only on an accepted or declined outcome, and then
      only in the status of the rows with those ids. */
  lemma StatusWriteRule(rows: seq<Row>, collaboratorId: int, invitationId: int, lookup: Reply, check: Reply)
    ensures var decision := ClassifyInvitation(lookup, rows, invitationId, check);
      var after := RowsAfterCheck(rows, collaboratorId, invitationId, lookup, check);
      |after| == |rows|
      && (decision.status != Accepted && decision.status != Declined ==> after == rows)
      && (forall i :: 0 <= i < |rows| ==> after[i].(invitationStatus := rows[i].invitationStatus) == rows[i])
      && (decision.status == Accepted || decision.status == Declined ==>
            forall i :: 0 <= i < |rows| && rows[i].id == collaboratorId ==> after[i].invitationStatus == StatusName(decision.status))
  {
  }

  /** The action against the table. */
  method CheckInvitationStatusAction(table: CollaboratorTable, user: Option<User>, token: Option<string>,
                                     collaboratorId: int, lookup: Reply, check: Reply)
    returns (response: StatusResponse)
    modifies table
    ensures var guard := StatusGuard(user, token, old(table.rows), collaboratorId);
      (guard.Some? ==> response == StatusFailure(guard.value) && table.rows == old(table.rows))
      && (guard.None? ==>
            var invitationId := FindById(old(table.rows), collaboratorId).value.invitationId.value;
            response == StatusOf(StatusName(ClassifyInvitation(lookup, old(table.rows), invitationId, check).status))
            && table.rows == RowsAfterCheck(old(table.rows), collaboratorId, invitationId, lookup, check))
  {
    var guard := StatusGuard(user, token, table.rows, collaboratorId);
    if guard.Some? {
      return StatusFailure(guard.value);
    }
    var invitationId := FindById(table.rows, collaboratorId).value.invitationId.value;
    var status := CheckInvitationStatus(table, lookup, invitationId, check);
    if status == Accepted || status == Declined {
      table.SetStatus(collaboratorId, StatusName(status));
    }
    response := StatusOf(StatusName(status));
  }
}
