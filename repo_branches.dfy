/** The branch list (components/repo/repo-branches.tsx): the search filter,
    the per-branch status lookup and icon choice, the "Make Changes" button
    guard and the branch-creation handler. */
module RepoBranches {
  import opened Common
  import BranchNames

  /** `BranchStatus` from the branch-status route; how it is computed is not
      part of this model. */
  datatype StatusKind = Open | HasPr | Merged | Deleted
  datatype BranchStatus = BranchStatus(name: string, status: StatusKind, prNumber: Option<int>, prUrl: Option<string>)

  /** `branch.toLowerCase().includes(search.toLowerCase())`. */
  predicate MatchesSearch(branch: string, search: string) {
    Contains(Lower(branch), Lower(search))
  }

  /** `filteredBranches`: the branches matching the search, in order. */
  function FilterBranches(branches: seq<string>, search: string): (r: seq<string>)
    ensures |r| <= |branches|
    ensures forall b :: b in r <==> b in branches && MatchesSearch(b, search)
  {
    if branches == [] then []
    else (if MatchesSearch(branches[0], search) then [branches[0]] else []) + FilterBranches(branches[1..], search)
  }

  /** The filter keeps the list's order: filtering a concatenation is
      concatenating the filtered parts. */
  lemma {:induction false} FilterBranchesAppend(a: seq<string>, b: seq<string>, search: string)
    ensures FilterBranches(a + b, search) == FilterBranches(a, search) + FilterBranches(b, search)
    decreases |a|
  {
    if a == [] {
      assert a + b == b;
    } else {
      assert (a + b)[0] == a[0];
      assert (a + b)[1..] == a[1..] + b;
      FilterBranchesAppend(a[1..], b, search);
    }
  }

  /** Every name contains the empty string, so an empty search lists all. */
  lemma {:induction false} EmptySearchListsAll(branches: seq<string>)
    ensures FilterBranches(branches, "") == branches
    decreases |branches|
  {
    if branches != [] {
      assert StartsWith(Lower(branches[0]), Lower(""));
      EmptySearchListsAll(branches[1..]);
    }
  }

  /** With no branch list (`branches` undefined) there is nothing to filter. */
  function FilteredBranches(branches: Option<seq<string>>, search: string): (r: Option<seq<string>>)
    ensures r.None? <==> branches.None?
    ensures r.Some? ==> forall b :: b in r.value <==> b in branches.value && MatchesSearch(b, search)
  {
    if branches.Some? then Some(FilterBranches(branches.value, search)) else None
  }

  /** Position `i` holds the first status named `branchName`. */
  predicate IsFirstMatch(statuses: seq<BranchStatus>, branchName: string, i: int) {
    0 <= i < |statuses| && statuses[i].name == branchName
    && forall j :: 0 <= j < i ==> statuses[j].name != branchName
  }

  lemma FirstMatchUnique(statuses: seq<BranchStatus>, branchName: string, i: int, k: int)
    requires IsFirstMatch(statuses, branchName, i) && IsFirstMatch(statuses, branchName, k)
    ensures i == k
  {
  }

  /** `branchStatuses.find(status => status.name === branchName)`. */
  function GetBranchStatus(statuses: seq<BranchStatus>, branchName: string): (r: Option<BranchStatus>)
    ensures r.None? <==> forall i :: 0 <= i < |statuses| ==> statuses[i].name != branchName
    ensures r.Some? ==> exists i :: IsFirstMatch(statuses, branchName, i) && statuses[i] == r.value
  {
    if statuses == [] then None
    else if statuses[0].name == branchName then
      assert IsFirstMatch(statuses, branchName, 0);
      Some(statuses[0])
    else
      var r := GetBranchStatus(statuses[1..], branchName);
      if r.Some? then
        var i :| IsFirstMatch(statuses[1..], branchName, i) && statuses[1..][i] == r.value;
        assert IsFirstMatch(statuses, branchName, i + 1) by {
          forall j | 0 <= j < i + 1
            ensures statuses[j].name != branchName
          {
            if j > 0 {
              assert statuses[j] == statuses[1..][j - 1];
            }
          }
        }
        r
      else
        assert forall i :: 0 <= i < |statuses| ==> statuses[i].name != branchName by {
          forall i | 0 <= i < |statuses|
            ensures statuses[i].name != branchName
          {
            if i > 0 {
              assert statuses[i] == statuses[1..][i - 1];
            }
          }
        }
        r
  }

  datatype StatusIcon =
    | NoIcon
    | PullRequestIcon(url: Option<string>, number: Option<int>)
    | MergedIcon(url: Option<string>, number: Option<int>)

  predicate HasIcon(s: BranchStatus) {
    s.status == HasPr || s.status == Merged
  }

  /** `renderBranchStatus`: only an open pull request or a merged branch
      gets an icon, linking to the pull request, and only the first status
      with the branch's name counts. */
  function RenderBranchStatus(statuses: seq<BranchStatus>, branchName: string): (r: StatusIcon)
    ensures r != NoIcon <==> exists i :: IsFirstMatch(statuses, branchName, i) && HasIcon(statuses[i])
    ensures r.PullRequestIcon? ==> GetBranchStatus(statuses, branchName).value.status == HasPr
    ensures r.MergedIcon? ==> GetBranchStatus(statuses, branchName).value.status == Merged
  {
    var s := GetBranchStatus(statuses, branchName);
    if s.None? then NoIcon
    else
      var i :| IsFirstMatch(statuses, branchName, i) && statuses[i] == s.value;
      assert forall k :: IsFirstMatch(statuses, branchName, k) ==> k == i by {
        forall k | IsFirstMatch(statuses, branchName, k)
          ensures k == i
        {
          FirstMatchUnique(statuses, branchName, i, k);
        }
      }
      match s.value.status
      case HasPr => PullRequestIcon(s.value.prUrl, s.value.prNumber)
      case Merged => MergedIcon(s.value.prUrl, s.value.prNumber)
      case _ => NoIcon
  }

  /** The "Make Changes" button's `disabled`. */
  predicate MakeChangesDisabled(search: string, branches: seq<string>, isSubmitting: bool) {
    search == [] || !BranchNames.Valid(search) || search in branches || isSubmitting
  }

  /** The button is enabled exactly for a valid name that is not yet a
      branch, while nothing is being submitted. */
  lemma MakeChangesEnabledMeaning(search: string, branches: seq<string>, isSubmitting: bool)
    ensures !MakeChangesDisabled(search, branches, isSubmitting)
        <==> BranchNames.Valid(search) && search !in branches && !isSubmitting
  {
  }

  /** The button's `disabled` with `isValidBranchName` as written. */
  predicate MakeChangesDisabledAsWritten(search: string, branches: seq<string>, isSubmitting: bool) {
    search == [] || !BranchNames.ValidAsWritten(search) || search in branches || isSubmitting
  }

  /** The corrected test and the one as written disable the button for the
      same names unless the name holds a line terminator. */
  lemma MakeChangesGuardsAgree(search: string, branches: seq<string>, isSubmitting: bool)
    requires forall j :: 0 <= j < |search| ==> !BranchNames.IsLineTerminator(search[j])
    ensures MakeChangesDisabled(search, branches, isSubmitting)
        <==> MakeChangesDisabledAsWritten(search, branches, isSubmitting)
  {
    BranchNames.AgreeWithoutLineTerminators(search);
  }

  /** A pasted "a", U+2028, "..b" enables the button as written; the
      corrected test keeps it disabled. */
  lemma PastedSeparatorEnablesAsWritten()
    ensures !MakeChangesDisabledAsWritten(['a', '\U{2028}', '.', '.', 'b'], [], false)
    ensures MakeChangesDisabled(['a', '\U{2028}', '.', '.', 'b'], [], false)
  {
    BranchNames.AnyLineTerminatorHidesForbiddenSequence('\U{2028}');
  }

  /** `setBranches([...branches, newBranch])`, or a one-element list. */
  function AppendBranch(branches: Option<seq<string>>, newBranch: string): (r: seq<string>)
    ensures |r| == (if branches.Some? then |branches.value| else 0) + 1
    ensures r[|r| - 1] == newBranch
    ensures branches.Some? ==> r[..|r| - 1] == branches.value
    ensures forall b :: b in r <==> b == newBranch || (branches.Some? && b in branches.value)
  {
    if branches.Some? then branches.value + [newBranch] else [newBranch]
  }

  /** The list the handler extends is the one captured when it was called. */
  datatype CreateRequest = CreateRequest(name: string, branchesAtCall: Option<seq<string>>)

  /** The component's state. `branches` lives in the repository context;
      the list shown is the one the component sees. */
  class BranchList {
    var search: string
    var branches: Option<seq<string>>
    var isSubmitting: bool

    constructor (branches: Option<seq<string>>)
      ensures this.branches == branches && search == [] && !isSubmitting
    {
      this.branches := branches;
      search := [];
      isSubmitting := false;
    }

    /** The filtered list the effect keeps in step with search and branches. */
    function Filtered(): Option<seq<string>>
      reads this
    {
      FilteredBranches(branches, search)
    }

    /** Nothing but "No branches." is rendered for a missing or empty list. */
    predicate ShowsNoBranches()
      reads this
    {
      branches.None? || branches.value == []
    }

    /** The first half of `handleCreateBranch`: with a configuration and a
      non-empty search (`search || isValidBranchName(search)`) the request
      is sent. */
    method BeginCreate(hasConfig: bool) returns (request: Option<CreateRequest>)
      modifies this
      ensures request.Some? <==> hasConfig && (old(search) != [] || BranchNames.Valid(old(search)))
      ensures request.Some? ==> request.value == CreateRequest(old(search), old(branches)) && isSubmitting
      ensures request.None? ==> isSubmitting == old(isSubmitting)
      ensures search == old(search) && branches == old(branches)
    {
      request := None;
      if hasConfig {
        if search != [] || BranchNames.Valid(search) {
          isSubmitting := true;
          request := Some(CreateRequest(search, branches));
        }
      }
    }

    /** The second half: only a response that is ok and reports success
      extends the list; `isSubmitting` is reset either way. */
    method CompleteCreate(request: CreateRequest, success: bool)
      modifies this
      ensures !isSubmitting
      ensures success ==> branches == Some(AppendBranch(request.branchesAtCall, request.name))
      ensures !success ==> branches == old(branches)
      ensures search == old(search)
    {
      if success {
        branches := Some(AppendBranch(request.branchesAtCall, request.name));
      }
      isSubmitting := false;
    }
  }

  /** A name created from the list shows up in it, after the names that
      were there. */
  lemma CreatedBranchListed(request: CreateRequest)
    requires request.branchesAtCall.Some?
    ensures var r := AppendBranch(request.branchesAtCall, request.name);
      request.name in r && r[..|request.branchesAtCall.value|] == request.branchesAtCall.value
  {
  }
}
