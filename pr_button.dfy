/** The "Send changes for review" button (components/repo/repo-pr-button.tsx):
    shown on the user's branch while edits are pending, it opens a dialog
    whose title starts as "Update content in <branch>". */
module PrButton {
  import opened Common

  predicate Visible(isUserBranch: bool, hasPendingChanges: bool) {
    isUserBranch && hasPendingChanges
  }

  /** `Update content in ${config?.branch || ''}`. */
  function InitialTitle(branch: Option<string>): (r: string)
    ensures StartsWith(r, "Update content in ")
    ensures r[|"Update content in "|..] == if branch.Some? then branch.value else []
  {
    "Update content in " + if branch.Some? then branch.value else []
  }

  /** "Create pull request" is disabled while submitting or while the title
      is blank after trimming. */
  predicate CreateDisabled(isSubmitting: bool, title: string) {
    isSubmitting || Trim(title) == []
  }

  /** The initial title is never blank, so a fresh dialog can be submitted. */
  lemma InitialTitleSubmittable(branch: Option<string>)
    ensures !CreateDisabled(false, InitialTitle(branch))
  {
    var t := InitialTitle(branch);
    assert t[0] == 'U' && !IsJsWhitespace(t[0]);
    assert TrimStart(t) == t;
    assert 0 < |TrimEnd(t)|;
  }

  /** What a finished request does outside the dialog. */
  datatype Effect = Navigate(branch: string) | ErrorToast(message: string)

  class PrDialog {
    var isOpen: bool
    var isSubmitting: bool
    var title: string
    var description: string

    constructor (branch: Option<string>)
      ensures !isOpen && !isSubmitting && title == InitialTitle(branch) && description == []
    {
      isOpen := false;
      isSubmitting := false;
      title := InitialTitle(branch);
      description := [];
    }

    /** The first half of `handleCreatePR`: title and description go to
      `createPullRequest`. */
    method BeginCreate() returns (title': string, description': string)
      modifies this
      ensures isSubmitting && title' == title && description' == description
      ensures isOpen == old(isOpen) && title == old(title) && description == old(description)
    {
      isSubmitting := true;
      title', description' := title, description;
    }

    /** The second half: on success the dialog closes and the router goes to
      the default branch (or ""); on failure the dialog stays open. */
    method CompleteCreate(succeeded: bool, defaultBranch: Option<string>) returns (effect: Effect)
      modifies this
      ensures !isSubmitting
      ensures succeeded ==> !isOpen && effect == Navigate(if defaultBranch.Some? then defaultBranch.value else [])
      ensures !succeeded ==> isOpen == old(isOpen) && effect == ErrorToast("Failed to create pull request")
      ensures title == old(title) && description == old(description)
    {
      if succeeded {
        isOpen := false;
        effect := Navigate(if defaultBranch.Some? then defaultBranch.value else []);
      } else {
        effect := ErrorToast("Failed to create pull request");
      }
      isSubmitting := false;
    }
  }
}
