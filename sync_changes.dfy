/** The external-changes banner (components/repo/repo-sync-changes.tsx): a
    check for commits made outside the editor, a banner offering to
    dismiss, check again or sync, and the sync itself. The clock is a
    parameter; the five-minute polling timer is not part of this model. */
module SyncChanges {
  import opened Common

  datatype CommitInfo = CommitInfo(sha: string, message: string, date: string, authorName: string, authorEmail: string)

  /** What a request to the changes route produced: nothing (a network or
      JSON error), or a reply with its HTTP status, its `status` field and
      its data. */
  datatype ChangesReply =
    | NoReply
    | Reply(ok: bool, success: bool, hasChanges: bool, lastCommit: Option<CommitInfo>)

  /** The scheduled check throws on a reply that is not ok before reading
      it; only a successful one is applied. */
  predicate CheckApplies(reply: ChangesReply) {
    reply.Reply? && reply.ok && reply.success
  }

  /** "Check Again" never looks at `ok`: any reply whose body says success
      is applied. */
  predicate CheckAgainApplies(reply: ChangesReply) {
    reply.Reply? && reply.success
  }

  /** The banner renders only on the user's branch with external changes. */
  predicate BannerVisible(isUserBranch: bool, hasExternalChanges: bool) {
    isUserBranch && hasExternalChanges
  }

  /** "Dismiss" and "Check Again" are disabled while a check or a sync runs. */
  predicate DismissDisabled(isChecking: bool, isSyncing: bool) {
    isChecking || isSyncing
  }

  /** "Sync Changes" is also disabled while edits are pending. */
  predicate SyncDisabled(isChecking: bool, isSyncing: bool, hasPendingChanges: bool) {
    isChecking || isSyncing || hasPendingChanges
  }

  /** `toast.error(error.message || "Failed to sync changes")`. */
  function SyncFailureToast(message: string): (r: string)
    ensures r != []
    ensures message != [] ==> r == message
  {
    if message != [] then message else "Failed to sync changes"
  }

  /** What a finished sync does outside the banner. */
  datatype SyncEffect = Refresh | ErrorToast(message: string)

  class ChangesBanner {
    var hasExternalChanges: bool
    var isChecking: bool
    var isSyncing: bool
    var lastCommit: Option<CommitInfo>
    var lastChecked: Option<int>

    constructor ()
      ensures !hasExternalChanges && !isChecking && !isSyncing && lastCommit.None? && lastChecked.None?
    {
      hasExternalChanges := false;
      isChecking := false;
      isSyncing := false;
      lastCommit := None;
      lastChecked := None;
    }

    /** While a check or a sync runs, no button of the banner is enabled,
      whatever edits are pending. */
    predicate ButtonsLocked()
      reads this
    {
      DismissDisabled(isChecking, isSyncing) && forall pending: bool :: SyncDisabled(isChecking, isSyncing, pending)
    }

    /** Applies a successful reply: the flag follows the reply, and the last
      commit is replaced only when the reply carries one. */
    method ApplyReply(reply: ChangesReply)
      requires reply.Reply?
      modifies this
      ensures hasExternalChanges == reply.hasChanges
      ensures lastCommit == if reply.lastCommit.Some? then reply.lastCommit else old(lastCommit)
      ensures isChecking == old(isChecking) && isSyncing == old(isSyncing) && lastChecked == old(lastChecked)
    {
      hasExternalChanges := reply.hasChanges;
      if reply.lastCommit.Some? {
        lastCommit := reply.lastCommit;
      }
    }

    /** The first half of `checkForChanges`: it returns at once while a
      check is running or without a configuration. The function is a
      closure made when the configuration last changed, so the flag it
      tests is the one captured then, not the current one. */
    method BeginCheck(capturedIsChecking: bool, hasConfig: bool) returns (started: bool)
      modifies this
      ensures started <==> !capturedIsChecking && hasConfig
      ensures started ==> isChecking && ButtonsLocked()
      ensures !started ==> isChecking == old(isChecking)
      ensures hasExternalChanges == old(hasExternalChanges) && isSyncing == old(isSyncing)
      ensures lastCommit == old(lastCommit) && lastChecked == old(lastChecked)
    {
      if capturedIsChecking || !hasConfig {
        started := false;
      } else {
        isChecking := true;
        started := true;
      }
    }

    /** The second half: a successful reply is applied, anything else
      leaves flag and commit alone; `isChecking` is reset and `lastChecked`
      set in every case. */
    method CompleteCheck(reply: ChangesReply, now: int)
      modifies this
      ensures !isChecking && lastChecked == Some(now)
      ensures ButtonsLocked() <==> isSyncing
      ensures CheckApplies(reply) ==>
        hasExternalChanges == reply.hasChanges
        && lastCommit == (if reply.lastCommit.Some? then reply.lastCommit else old(lastCommit))
      ensures !CheckApplies(reply) ==> hasExternalChanges == old(hasExternalChanges) && lastCommit == old(lastCommit)
      ensures isSyncing == old(isSyncing)
    {
      if CheckApplies(reply) {
        ApplyReply(reply);
      }
      isChecking := false;
      lastChecked := Some(now);
    }

    /** "Check Again": `lastChecked` is stamped when the check starts. */
    method BeginCheckAgain(now: int)
      modifies this
      ensures isChecking && lastChecked == Some(now) && ButtonsLocked()
      ensures hasExternalChanges == old(hasExternalChanges) && isSyncing == old(isSyncing) && lastCommit == old(lastCommit)
    {
      isChecking := true;
      lastChecked := Some(now);
    }

    method CompleteCheckAgain(reply: ChangesReply)
      modifies this
      ensures !isChecking
      ensures ButtonsLocked() <==> isSyncing
      ensures CheckAgainApplies(reply) ==>
        hasExternalChanges == reply.hasChanges
        && lastCommit == (if reply.lastCommit.Some? then reply.lastCommit else old(lastCommit))
      ensures !CheckAgainApplies(reply) ==> hasExternalChanges == old(hasExternalChanges) && lastCommit == old(lastCommit)
      ensures isSyncing == old(isSyncing) && lastChecked == old(lastChecked)
    {
      if CheckAgainApplies(reply) {
        ApplyReply(reply);
      }
      isChecking := false;
    }

    /** "Dismiss" hides the banner until the next check. */
    method Dismiss()
      modifies this
      ensures !hasExternalChanges
      ensures isChecking == old(isChecking) && isSyncing == old(isSyncing)
      ensures lastCommit == old(lastCommit) && lastChecked == old(lastChecked)
    {
      hasExternalChanges := false;
    }

    /** The first half of `handleSync`: nothing happens without a configuration. */
    method BeginSync(hasConfig: bool) returns (started: bool)
      modifies this
      ensures started == hasConfig
      ensures isSyncing == (hasConfig || old(isSyncing))
      ensures started ==> ButtonsLocked()
      ensures hasExternalChanges == old(hasExternalChanges) && isChecking == old(isChecking)
      ensures lastCommit == old(lastCommit) && lastChecked == old(lastChecked)
    {
      started := hasConfig;
      if hasConfig {
        isSyncing := true;
      }
    }

    /** The second half: only an ok reply with status "success" clears the
      flag (and refreshes the page); `isSyncing` is reset either way.
      `errorMessage` is the message of the error caught: the HTTP status
      line for a reply that is not ok, the reply's own message otherwise. */
    method CompleteSync(ok: bool, success: bool, errorMessage: string) returns (effect: SyncEffect)
      modifies this
      ensures !isSyncing
      ensures ButtonsLocked() <==> isChecking
      ensures ok && success ==> !hasExternalChanges && effect == Refresh
      ensures !(ok && success) ==>
        hasExternalChanges == old(hasExternalChanges) && effect == ErrorToast(SyncFailureToast(errorMessage))
      ensures isChecking == old(isChecking) && lastCommit == old(lastCommit) && lastChecked == old(lastChecked)
    {
      if ok && success {
        hasExternalChanges := false;
        effect := Refresh;
      } else {
        effect := ErrorToast(SyncFailureToast(errorMessage));
      }
      isSyncing := false;
    }
  }
}
