/** The "Make Changes" button shown in read-only mode
    (components/repo/repo-make-changes-button.tsx): a dialog asking for a
    branch name, its guards, and what a finished request does. */
module MakeChanges {
  import opened Common
  import BranchNames
  import RepoBranches

  /** The component renders nothing unless the branch is read-only. */
  predicate Visible(readOnly: bool) {
    readOnly
  }

  /** `branches?.includes(name)`. */
  predicate AlreadyBranch(branches: Option<seq<string>>, name: string) {
    branches.Some? && name in branches.value
  }

  /** The early return of `handleCreateBranch`: no configuration, an invalid
      name or an existing branch issues no request. */
  predicate RequestAllowed(hasConfig: bool, branchName: string, branches: Option<seq<string>>) {
    hasConfig && BranchNames.Valid(branchName) && !AlreadyBranch(branches, branchName)
  }

  /** The early return with `isValidBranchName` as written. */
  predicate RequestAllowedAsWritten(hasConfig: bool, branchName: string, branches: Option<seq<string>>) {
    hasConfig && BranchNames.ValidAsWritten(branchName) && !AlreadyBranch(branches, branchName)
  }

  /** The corrected guard and the one as written let the same names through
      unless the name holds a line terminator. */
  lemma RequestGuardsAgree(hasConfig: bool, branchName: string, branches: Option<seq<string>>)
    requires forall j :: 0 <= j < |branchName| ==> !BranchNames.IsLineTerminator(branchName[j])
    ensures RequestAllowed(hasConfig, branchName, branches) <==> RequestAllowedAsWritten(hasConfig, branchName, branches)
  {
    BranchNames.AgreeWithoutLineTerminators(branchName);
  }

  /** A pasted "a", U+2028, "..b" gets through only as written. */
  lemma PastedSeparatorAllowedAsWritten()
    ensures RequestAllowedAsWritten(true, ['a', '\U{2028}', '.', '.', 'b'], None)
    ensures !RequestAllowed(true, ['a', '\U{2028}', '.', '.', 'b'], None)
  {
    BranchNames.AnyLineTerminatorHidesForbiddenSequence('\U{2028}');
  }

  /** The "Create branch" button's `disabled`. */
  predicate CreateDisabled(isSubmitting: bool, branchName: string, branches: Option<seq<string>>) {
    isSubmitting || branchName == [] || !BranchNames.Valid(branchName) || AlreadyBranch(branches, branchName)
  }

  /** With a configuration loaded and nothing in flight, the button is
      enabled exactly when the handler would send a request: the empty-name
      test in `disabled` is already part of the validity test. */
  lemma EnabledIffRequestAllowed(branchName: string, branches: Option<seq<string>>)
    ensures !CreateDisabled(false, branchName, branches) <==> RequestAllowed(true, branchName, branches)
  {
  }

  /** What a finished request does outside the dialog: the branch the router
      is sent to, and the toast shown. */
  datatype Effect = Effect(navigateTo: Option<string>, toast: string)

  const DefaultFailure := "Failed to create branch"

  /** `toast.error(error.message || "Failed to create branch")`. */
  function FailureToast(message: string): (r: string)
    ensures r != []
    ensures message != [] ==> r == message
  {
    if message != [] then message else DefaultFailure
  }

  class MakeChangesDialog {
    var isOpen: bool
    var isSubmitting: bool
    var branchName: string
    var branches: Option<seq<string>>

    constructor (branches: Option<seq<string>>)
      ensures !isOpen && !isSubmitting && branchName == [] && this.branches == branches
    {
      isOpen := false;
      isSubmitting := false;
      branchName := [];
      this.branches := branches;
    }

    /** The first half of `handleCreateBranch`. */
    method BeginCreate(hasConfig: bool) returns (request: Option<RepoBranches.CreateRequest>)
      modifies this
      ensures request.Some? <==> RequestAllowed(hasConfig, old(branchName), old(branches))
      ensures request.Some? ==> request.value == RepoBranches.CreateRequest(old(branchName), old(branches)) && isSubmitting
      ensures request.None? ==> isSubmitting == old(isSubmitting)
      ensures isOpen == old(isOpen) && branchName == old(branchName) && branches == old(branches)
    {
      if !RequestAllowed(hasConfig, branchName, branches) {
        request := None;
      } else {
        isSubmitting := true;
        request := Some(RepoBranches.CreateRequest(branchName, branches));
      }
    }

    /** The second half: on success the branch is appended to the list the
      handler saw, the dialog closes and the router goes to the new branch;
      on failure the list and the dialog stay as they are. `isSubmitting` is
      reset either way. */
    method CompleteCreate(request: RepoBranches.CreateRequest, success: bool, errorMessage: string) returns (effect: Effect)
      modifies this
      ensures !isSubmitting && branchName == old(branchName)
      ensures success ==>
        branches == Some(RepoBranches.AppendBranch(request.branchesAtCall, request.name))
        && !isOpen && effect.navigateTo == Some(request.name)
      ensures !success ==>
        branches == old(branches) && isOpen == old(isOpen)
        && effect == Effect(None, FailureToast(errorMessage))
    {
      if success {
        branches := Some(RepoBranches.AppendBranch(request.branchesAtCall, request.name));
        effect := Effect(Some(request.name), "Branch \"" + request.name + "\" created successfully");
        isOpen := false;
      } else {
        effect := Effect(None, FailureToast(errorMessage));
      }
      isSubmitting := false;
    }
  }
}
