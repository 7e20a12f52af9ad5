/** The working-branch controls (components/repo/working-branch-controls.tsx):
    the branch-name sanitiser and the `content-changes/<user>/<name>-<time>`
    name built from it, the working-branch test, the target-branch options
    and the two dialog handlers. The clock is a parameter. */
module WorkingBranch {
  import opened Common
  import BranchNames

  const WorkingPrefix := "content-changes/"
  const UnknownUser := "unknown"
  const BranchNameRequired := "Branch name is required"

  /** `[a-z0-9-]`. */
  predicate IsSlugChar(c: char) {
    ('a' <= c <= 'z') || ('0' <= c <= '9') || c == '-'
  }

  predicate IsSlug(s: string) {
    forall i :: 0 <= i < |s| ==> IsSlugChar(s[i])
  }

  predicate NoDoubleHyphen(s: string) {
    forall i :: 0 <= i < |s| - 1 ==> !(s[i] == '-' && s[i + 1] == '-')
  }

  predicate NoEdgeHyphen(s: string) {
    s == [] || (s[0] != '-' && s[|s| - 1] != '-')
  }

  /** `.replace(/[^a-z0-9-]/g, '-')`. */
  function ReplaceDisallowed(s: string): (r: string)
    ensures |r| == |s| && IsSlug(r)
    ensures forall i :: 0 <= i < |s| ==> r[i] == (if IsSlugChar(s[i]) then s[i] else '-')
  {
    seq(|s|, i requires 0 <= i < |s| => if IsSlugChar(s[i]) then s[i] else '-')
  }

  /** `.replace(/-+/g, '-')`: every run of hyphens becomes one. */
  function Collapse(s: string): (r: string)
    ensures |r| <= |s|
    ensures s != [] ==> r != [] && r[0] == s[0] && r[|r| - 1] == s[|s| - 1]
    ensures IsSlug(s) ==> IsSlug(r)
    ensures NoDoubleHyphen(r)
    decreases |s|
  {
    if s == [] then []
    else if |s| > 1 && s[0] == '-' && s[1] == '-' then Collapse(s[1..])
    else [s[0]] + Collapse(s[1..])
  }

  /** The equations that determine `Collapse`: a character other than a
      hyphen is kept, a hyphen not followed by one is kept, and two
      hyphens in a row count as one. */
  lemma CollapseSteps(c: char, s: string)
    ensures Collapse([]) == []
    ensures c != '-' ==> Collapse([c] + s) == [c] + Collapse(s)
    ensures (s == [] || s[0] != '-') ==> Collapse(['-'] + s) == ['-'] + Collapse(s)
    ensures Collapse(['-', '-'] + s) == Collapse(['-'] + s)
  {
    assert ([c] + s)[1..] == s;
    assert (['-'] + s)[1..] == s;
    assert (['-', '-'] + s)[1..] == ['-'] + s;
  }

  /** The characters of `s` other than hyphens, in order. */
  function NonHyphens(s: string): (r: string)
    ensures forall i :: 0 <= i < |r| ==> r[i] != '-'
    decreases |s|
  {
    if s == [] then [] else (if s[0] == '-' then [] else [s[0]]) + NonHyphens(s[1..])
  }

  /** Collapsing removes hyphens only: every other character is kept, in
      order. */
  lemma {:induction false} CollapseKeepsNonHyphens(s: string)
    ensures NonHyphens(Collapse(s)) == NonHyphens(s)
    decreases |s|
  {
    if s != [] {
      CollapseKeepsNonHyphens(s[1..]);
      if !(|s| > 1 && s[0] == '-' && s[1] == '-') {
        var r := [s[0]] + Collapse(s[1..]);
        assert r[1..] == Collapse(s[1..]);
      }
    }
  }

  /** A name without a run of hyphens is left as it is. */
  lemma {:induction false} CollapseKeepsClean(s: string)
    requires NoDoubleHyphen(s)
    ensures Collapse(s) == s
    decreases |s|
  {
    if s != [] {
      assert NoDoubleHyphen(s[1..]) by {
        forall i | 0 <= i < |s[1..]| - 1
          ensures !(s[1..][i] == '-' && s[1..][i + 1] == '-')
        {
          assert s[1..][i] == s[i + 1] && s[1..][i + 1] == s[i + 2];
        }
      }
      CollapseKeepsClean(s[1..]);
      assert !(|s| > 1 && s[0] == '-' && s[1] == '-');
      assert [s[0]] + s[1..] == s;
    }
  }

  /** `.replace(/^-|-$/g, '')`. */
  function StripEdgeHyphen(s: string): string {
    var a := if s != [] && s[0] == '-' then s[1..] else s;
    if a != [] && a[|a| - 1] == '-' then a[..|a| - 1] else a
  }

  /** The replace chain after `trim().toLowerCase()`; the dialog's preview
      applies it to the untrimmed name. */
  function SanitizeUntrimmed(s: string): string {
    StripEdgeHyphen(Collapse(ReplaceDisallowed(Lower(s))))
  }

  /** The sanitised segment of the working-branch name. */
  function Sanitize(s: string): string {
    SanitizeUntrimmed(Trim(s))
  }

  /** `user?.githubUsername?.toLowerCase() || 'unknown'`. */
  function UserSegment(username: Option<string>): string {
    if username.Some? && Lower(username.value) != [] then Lower(username.value) else UnknownUser
  }

  /** `content-changes/${username}/${sanitizedBranchName}-${timestamp}`. */
  function FullBranchName(username: Option<string>, branchName: string, timestamp: nat): string {
    WorkingPrefix + UserSegment(username) + "/" + Sanitize(branchName) + "-" + NatToString(timestamp)
  }

  /** `config.branch.startsWith("content-changes/")`. */
  predicate IsWorkingBranch(branch: string) {
    StartsWith(branch, WorkingPrefix)
  }

  /** The dialog's preview line: the sanitised name, or "branch-name". */
  function Preview(branchName: string): string {
    if branchName != [] then SanitizeUntrimmed(branchName) else "branch-name"
  }

  // ---------------------------------------------------------------------
  // The sanitised segment

  lemma StripEdgeHyphenKeeps(s: string)
    requires IsSlug(s) && NoDoubleHyphen(s)
    ensures var r := StripEdgeHyphen(s);
      IsSlug(r) && NoDoubleHyphen(r) && NoEdgeHyphen(r)
  {
    var a := if s != [] && s[0] == '-' then s[1..] else s;
    assert IsSlug(a) && NoDoubleHyphen(a);
    assert a != [] && s != [] && s[0] == '-' ==> a[0] == s[1] && a[0] != '-';
    var r := StripEdgeHyphen(s);
    if a != [] && a[|a| - 1] == '-' && |a| > 1 {
      assert a[|a| - 2] != '-';
    }
  }

  /** The sanitised segment uses only `[a-z0-9-]`, never holds "--" and
      neither starts nor ends with "-". */
  lemma SanitizeShape(s: string)
    ensures IsSlug(Sanitize(s)) && NoDoubleHyphen(Sanitize(s)) && NoEdgeHyphen(Sanitize(s))
  {
    StripEdgeHyphenKeeps(Collapse(ReplaceDisallowed(Lower(Trim(s)))));
  }

  lemma {:induction false} CollapseKeepsSingles(s: string)
    requires NoDoubleHyphen(s)
    ensures Collapse(s) == s
    decreases |s|
  {
    if s != [] {
      CollapseKeepsSingles(s[1..]);
    }
  }

  lemma LowerKeepsSlug(s: string)
    requires IsSlug(s)
    ensures Lower(s) == s
  {
  }

  lemma TrimKeepsSlug(s: string)
    requires IsSlug(s)
    ensures Trim(s) == s
  {
    assert TrimStart(s) == s;
  }

  /** A segment already in sanitised shape is its own sanitisation. */
  lemma SanitizeFixesShaped(t: string)
    requires IsSlug(t) && NoDoubleHyphen(t) && NoEdgeHyphen(t)
    ensures Sanitize(t) == t
  {
    calc {
      Sanitize(t);
      StripEdgeHyphen(Collapse(ReplaceDisallowed(Lower(Trim(t)))));
      { TrimKeepsSlug(t); LowerKeepsSlug(t); }
      StripEdgeHyphen(Collapse(ReplaceDisallowed(t)));
      { ReplaceKeepsSlug(t); }
      StripEdgeHyphen(Collapse(t));
      { CollapseKeepsSingles(t); }
      StripEdgeHyphen(t);
    }
  }

  lemma ReplaceKeepsSlug(s: string)
    requires IsSlug(s)
    ensures ReplaceDisallowed(s) == s
  {
  }

  /** Sanitising a sanitised segment changes nothing. */
  lemma SanitizeIdempotent(s: string)
    ensures Sanitize(Sanitize(s)) == Sanitize(s)
  {
    SanitizeShape(s);
    SanitizeFixesShaped(Sanitize(s));
  }

  /** A hyphen in front of a hyphen run is absorbed, otherwise kept. */
  lemma CollapseHyphenFront(x: string)
    ensures Collapse("-" + x) == if x != [] && x[0] == '-' then Collapse(x) else "-" + Collapse(x)
  {
    assert ("-" + x)[1..] == x;
  }

  /** The same at the back. */
  lemma {:induction false} CollapseHyphenBack(x: string)
    ensures Collapse(x + "-") == if x != [] && x[|x| - 1] == '-' then Collapse(x) else Collapse(x) + "-"
    decreases |x|
  {
    if x != [] {
      assert (x + "-")[1..] == x[1..] + "-";
      CollapseHyphenBack(x[1..]);
      if |x| == 1 {
        assert x[1..] == [];
      }
    }
  }

  /** Adding a hyphen in front does not change the result. */
  lemma HyphenFrontIgnored(x: string)
    ensures StripEdgeHyphen(Collapse("-" + x)) == StripEdgeHyphen(Collapse(x))
  {
    CollapseHyphenFront(x);
    if x != [] && x[0] != '-' {
      var y := Collapse(x);
      assert ("-" + y)[1..] == y;
    }
  }

  /** Nor does adding one at the back. */
  lemma HyphenBackIgnored(x: string)
    ensures StripEdgeHyphen(Collapse(x + "-")) == StripEdgeHyphen(Collapse(x))
  {
    CollapseHyphenBack(x);
    if x != [] && x[|x| - 1] != '-' {
      StripEdgeHyphenTrailing(Collapse(x));
    }
  }

  /** A hyphen appended after a non-hyphen is what gets stripped. */
  lemma StripEdgeHyphenTrailing(y: string)
    requires y != [] && y[|y| - 1] != '-'
    ensures StripEdgeHyphen(y + "-") == StripEdgeHyphen(y)
  {
    assert (y + "-")[..|y|] == y;
    if y[0] == '-' {
      assert (y + "-")[1..] == y[1..] + "-";
      assert (y[1..] + "-")[..|y| - 1] == y[1..];
    }
  }

  /** The character map applied before collapsing. */
  function SlugOf(s: string): string {
    ReplaceDisallowed(Lower(s))
  }

  lemma SlugOfWhitespaceFront(s: string)
    requires s != [] && IsJsWhitespace(s[0])
    ensures SlugOf(s) == "-" + SlugOf(s[1..])
  {
    var a, b := SlugOf(s), "-" + SlugOf(s[1..]);
    forall i | 0 <= i < |a|
      ensures a[i] == b[i]
    {
      if i == 0 {
        assert !IsSlugChar(LowerChar(s[0]));
      } else {
        assert s[1..][i - 1] == s[i];
      }
    }
  }

  lemma SlugOfWhitespaceBack(s: string)
    requires s != [] && IsJsWhitespace(s[|s| - 1])
    ensures SlugOf(s) == SlugOf(s[..|s| - 1]) + "-"
  {
    var a, b := SlugOf(s), SlugOf(s[..|s| - 1]) + "-";
    forall i | 0 <= i < |a|
      ensures a[i] == b[i]
    {
      if i == |s| - 1 {
        assert !IsSlugChar(LowerChar(s[|s| - 1]));
      } else {
        assert s[..|s| - 1][i] == s[i];
      }
    }
  }

  lemma {:induction false} UntrimmedIgnoresLeadingSpace(s: string)
    ensures SanitizeUntrimmed(TrimStart(s)) == SanitizeUntrimmed(s)
    decreases |s|
  {
    if s != [] && IsJsWhitespace(s[0]) {
      UntrimmedIgnoresLeadingSpace(s[1..]);
      SlugOfWhitespaceFront(s);
      HyphenFrontIgnored(SlugOf(s[1..]));
    }
  }

  lemma {:induction false} UntrimmedIgnoresTrailingSpace(s: string)
    ensures SanitizeUntrimmed(TrimEnd(s)) == SanitizeUntrimmed(s)
    decreases |s|
  {
    if s != [] && IsJsWhitespace(s[|s| - 1]) {
      UntrimmedIgnoresTrailingSpace(s[..|s| - 1]);
      SlugOfWhitespaceBack(s);
      HyphenBackIgnored(SlugOf(s[..|s| - 1]));
    }
  }

  /** The preview line (which skips `trim()`) shows exactly the segment the
      handler will use: edge whitespace turns into hyphens that are
      collapsed and stripped. */
  lemma PreviewMatchesHandler(branchName: string)
    requires branchName != []
    ensures Preview(branchName) == Sanitize(branchName)
  {
    UntrimmedIgnoresTrailingSpace(TrimStart(branchName));
    UntrimmedIgnoresLeadingSpace(branchName);
  }

  // ---------------------------------------------------------------------
  // The full name

  lemma FullBranchNameIsWorking(username: Option<string>, branchName: string, timestamp: nat)
    ensures IsWorkingBranch(FullBranchName(username, branchName, timestamp))
  {
    WorkingPrefixKept(UserSegment(username), Sanitize(branchName), NatToString(timestamp));
  }

  lemma WorkingPrefixKept(user: string, san: string, digits: string)
    ensures StartsWith(WorkingPrefix + user + "/" + san + "-" + digits, WorkingPrefix)
  {
    var full := WorkingPrefix + user + "/" + san + "-" + digits;
    assert full[..|WorkingPrefix|] == WorkingPrefix;
  }

  /** A GitHub login: letters, digits and hyphens. */
  predicate IsLoginChar(c: char) {
    ('a' <= c <= 'z') || ('A' <= c <= 'Z') || ('0' <= c <= '9') || c == '-'
  }

  /** Every character is a slug character or "/", and a "/" is followed by a
      slug character. */
  predicate RefSafe(s: string) {
    (forall i :: 0 <= i < |s| ==> IsSlugChar(s[i]) || s[i] == '/')
    && (forall i :: 0 <= i < |s| - 1 ==> s[i] == '/' ==> IsSlugChar(s[i + 1]))
  }

  lemma RefSafeJoin(a: string, b: string)
    requires RefSafe(a) && RefSafe(b)
    requires a != [] && a[|a| - 1] == '/' ==> b != [] && IsSlugChar(b[0])
    ensures RefSafe(a + b)
  {
    var s := a + b;
    forall i | 0 <= i < |s| - 1 && s[i] == '/'
      ensures IsSlugChar(s[i + 1])
    {
      if i < |a| - 1 {
        assert s[i + 1] == a[i + 1];
      } else if i == |a| - 1 {
        assert s[i + 1] == b[0];
      } else {
        assert s[i] == b[i - |a|] && s[i + 1] == b[i - |a| + 1];
      }
    }
  }

  lemma RefSafeHasNoForbiddenSequence(s: string)
    requires RefSafe(s)
    ensures forall i :: 0 <= i < |s| ==> !BranchNames.ForbiddenAt(s, i)
    ensures forall i :: 0 <= i < |s| ==> !BranchNames.IsForbiddenChar(s[i])
  {
  }

  lemma LowerLoginIsSlug(u: string)
    requires forall i :: 0 <= i < |u| ==> IsLoginChar(u[i])
    ensures IsSlug(Lower(u))
  {
    var l := Lower(u);
    forall i | 0 <= i < |l|
      ensures IsSlugChar(l[i])
    {
      assert l[i] == LowerChar(u[i]);
    }
  }

  lemma WorkingPrefixRefSafe()
    ensures RefSafe(WorkingPrefix)
  {
    var p := WorkingPrefix;
    assert |p| == 16 && p[15] == '/';
    assert forall i :: 0 <= i < 15 ==> IsSlugChar(p[i]);
  }

  lemma SlugJoinRefSafe(a: string, b: string)
    requires RefSafe(a) && IsSlug(b)
    requires a != [] && a[|a| - 1] == '/' ==> b != []
    ensures RefSafe(a + b)
  {
    RefSafeJoin(a, b);
  }

  lemma NameShapeRefSafe(user: string, san: string, digits: string)
    requires IsSlug(user) && user != [] && IsSlug(san) && IsSlug(digits)
    ensures RefSafe(WorkingPrefix + user + "/" + san + "-" + digits)
  {
    WorkingPrefixRefSafe();
    var a1 := WorkingPrefix + user;
    SlugJoinRefSafe(WorkingPrefix, user);
    var a2 := a1 + "/";
    RefSafeJoin(a1, "/");
    var a3 := a2 + san;
    if san == [] {
      assert a3 == a2;
    } else {
      SlugJoinRefSafe(a2, san);
    }
    var a4 := a3 + "-";
    SlugJoinRefSafe(a3, "-");
    SlugJoinRefSafe(a4, digits);
  }

  lemma UserSegmentIsSlug(username: Option<string>)
    requires username.Some? ==> forall i :: 0 <= i < |username.value| ==> IsLoginChar(username.value[i])
    ensures IsSlug(UserSegment(username)) && UserSegment(username) != []
  {
    if username.Some? && Lower(username.value) != [] {
      LowerLoginIsSlug(username.value);
    } else {
      var u := UnknownUser;
      assert u == ['u', 'n', 'k', 'n', 'o', 'w', 'n'];
      assert forall i :: 0 <= i < |u| ==> 'a' <= u[i] <= 'z';
    }
  }

  lemma NameShapeValid(user: string, san: string, digits: string)
    requires IsSlug(user) && user != [] && IsSlug(san) && IsSlug(digits) && digits != []
    ensures var full := WorkingPrefix + user + "/" + san + "-" + digits;
      BranchNames.Valid(full) <==> |full| <= BranchNames.MaxLength
  {
    var full := WorkingPrefix + user + "/" + san + "-" + digits;
    NameShapeRefSafe(user, san, digits);
    RefSafeHasNoForbiddenSequence(full);
    assert full[|full| - 1] == digits[|digits| - 1];
    assert full[0] == 'c';
  }

  /** For a user whose login is letters, digits and hyphens, the generated
      name passes the branch-name rules as long as it fits in 255
      characters. */
  lemma FullBranchNameValid(username: Option<string>, branchName: string, timestamp: nat)
    requires username.Some? ==> forall i :: 0 <= i < |username.value| ==> IsLoginChar(username.value[i])
    ensures BranchNames.Valid(FullBranchName(username, branchName, timestamp))
        <==> |FullBranchName(username, branchName, timestamp)| <= BranchNames.MaxLength
  {
    SanitizeShape(branchName);
    UserSegmentIsSlug(username);
    var digits := NatToString(timestamp);
    assert IsSlug(digits);
    NameShapeValid(UserSegment(username), Sanitize(branchName), digits);
  }

  /** Options offered as the pull-request target: every known branch that
      is not itself a working branch, in order. */
  function TargetBranchOptions(branches: seq<string>): (r: seq<string>)
    ensures forall b :: b in r <==> b in branches && !IsWorkingBranch(b)
    ensures |r| <= |branches|
  {
    if branches == [] then []
    else (if IsWorkingBranch(branches[0]) then [] else [branches[0]]) + TargetBranchOptions(branches[1..])
  }

  /** The filter keeps the order: the options of a concatenation are the
      options of each part, one after the other. */
  lemma {:induction false} TargetBranchOptionsAppend(a: seq<string>, b: seq<string>)
    ensures TargetBranchOptions(a + b) == TargetBranchOptions(a) + TargetBranchOptions(b)
    decreases |a|
  {
    if a == [] {
      assert a + b == b;
    } else {
      var head := if IsWorkingBranch(a[0]) then [] else [a[0]];
      assert (a + b)[0] == a[0];
      assert (a + b)[1..] == a[1..] + b;
      TargetBranchOptionsAppend(a[1..], b);
      ConcatAssoc(head, TargetBranchOptions(a[1..]), TargetBranchOptions(b));
    }
  }

  /** The "Create Pull Request" button's `disabled`. The title is not
      trimmed here, unlike the pull-request button elsewhere. */
  predicate CreatePullRequestDisabled(prTitle: string, targetBranch: string, isCreatingPR: bool) {
    prTitle == [] || targetBranch == [] || isCreatingPR
  }

  /** The "Create Branch" button's `disabled`. */
  predicate CreateBranchDisabled(branchName: string, isCreatingBranch: bool) {
    isCreatingBranch || Trim(branchName) == []
  }

  // ---------------------------------------------------------------------
  // The pull-request request body

  /** How the pull-request route reads a request body: `description`
      defaults to "" and `targetBranch` to "main" when missing or empty. */
  function RouteDescription(body: map<string, string>): string {
    if "description" in body && body["description"] != [] then body["description"] else []
  }

  function RouteTargetBranch(body: map<string, string>): string {
    if "targetBranch" in body && body["targetBranch"] != [] then body["targetBranch"] else "main"
  }

  /** The body `handleCreatePullRequest` sends as written: the description
      under `body` and the chosen target under `baseBranch`, keys the route
      does not read. */
  function RequestBodyAsWritten(title: string, description: string, targetBranch: string): map<string, string> {
    map["title" := title, "body" := description, "baseBranch" := targetBranch]
  }

  /** As written, the pull request always targets "main" and carries no
      description, whatever the dialog's fields say. */
  lemma AsWrittenIgnoresTargetAndDescription(title: string, description: string, targetBranch: string)
    ensures RouteTargetBranch(RequestBodyAsWritten(title, description, targetBranch)) == "main"
    ensures RouteDescription(RequestBodyAsWritten(title, description, targetBranch)) == []
  {
  }

  /** The body evidently intended, under the keys the route reads. */
  function RequestBody(title: string, description: string, targetBranch: string): map<string, string> {
    map["title" := title, "description" := description, "targetBranch" := targetBranch]
  }

  /** With the intended keys the route opens the pull request against the
      chosen branch with the typed description. */
  lemma RequestBodyHonoured(title: string, description: string, targetBranch: string)
    requires targetBranch != []
    ensures RouteTargetBranch(RequestBody(title, description, targetBranch)) == targetBranch
    ensures RouteDescription(RequestBody(title, description, targetBranch)) == description
    ensures RequestBody(title, description, targetBranch)["title"] == title
  {
  }

  /** The request and the target branch the handler navigates to. */
  datatype PullRequestCall = PullRequestCall(body: map<string, string>, targetBranch: string)

  /** What a finished request does outside the component: the branch the
      router is sent to, and the error toast. */
  datatype Effect = Effect(navigateTo: Option<string>, errorToast: Option<string>)

  /** The "Add/edit content" dialog, shown on branches that are not working
      branches. */
  class BranchDialog {
    var isCreatingBranch: bool
    var showBranchDialog: bool
    var branchName: string

    constructor ()
      ensures !isCreatingBranch && !showBranchDialog && branchName == []
    {
      isCreatingBranch := false;
      showBranchDialog := false;
      branchName := [];
    }

    /** The first half of `handleCreateWorkingBranch`: a blank name is
      refused with "Branch name is required"; otherwise the request for the
      full working-branch name is issued. */
    method BeginCreate(username: Option<string>, timestamp: nat) returns (request: Option<string>, errorToast: Option<string>)
      modifies this
      ensures Trim(old(branchName)) == [] ==>
        request.None? && errorToast == Some(BranchNameRequired) && isCreatingBranch == old(isCreatingBranch)
      ensures Trim(old(branchName)) != [] ==>
        request == Some(FullBranchName(username, old(branchName), timestamp)) && errorToast.None? && isCreatingBranch
      ensures branchName == old(branchName) && showBranchDialog == old(showBranchDialog)
    {
      var name := branchName;
      var blank := Trim(name) == [];
      if blank {
        request, errorToast := None, Some(BranchNameRequired);
      } else {
        request, errorToast := Some(FullBranchName(username, name, timestamp)), None;
        isCreatingBranch := true;
      }
    }

    /** The second half: on success the router goes to the new branch, the
      dialog closes and the name is cleared; on failure the error message is
      shown and the dialog keeps its name. `isCreatingBranch` is reset
      either way. */
    method CompleteCreate(fullName: string, success: bool, errorMessage: string) returns (effect: Effect)
      modifies this
      ensures !isCreatingBranch
      ensures success ==> effect == Effect(Some(fullName), None) && !showBranchDialog && branchName == []
      ensures !success ==>
        effect == Effect(None, Some(errorMessage))
        && showBranchDialog == old(showBranchDialog) && branchName == old(branchName)
    {
      if success {
        effect := Effect(Some(fullName), None);
        showBranchDialog := false;
        branchName := [];
      } else {
        effect := Effect(None, Some(errorMessage));
      }
      isCreatingBranch := false;
    }
  }

  /** The "Submit changes for review" dialog, shown on working branches. */
  class PullRequestDialog {
    var isCreatingPR: bool
    var prTitle: string
    var prDescription: string
    var targetBranch: string

    /** `targetBranch` starts as the repository's default branch, or "". */
    constructor (defaultBranch: Option<string>)
      ensures !isCreatingPR && prTitle == [] && prDescription == []
      ensures targetBranch == (if defaultBranch.Some? then defaultBranch.value else [])
    {
      isCreatingPR := false;
      prTitle := [];
      prDescription := [];
      targetBranch := if defaultBranch.Some? then defaultBranch.value else [];
    }

    /** The first half of `handleCreatePullRequest`: it has no guard of its
      own (the button's `disabled` is the guard) and sends title,
      description and target branch as they are, under the keys the route
      reads (see `RequestBodyAsWritten` for the keys the source uses). */
    method BeginCreate() returns (request: PullRequestCall)
      modifies this
      ensures request == PullRequestCall(RequestBody(prTitle, prDescription, targetBranch), targetBranch)
      ensures isCreatingPR
      ensures prTitle == old(prTitle) && prDescription == old(prDescription) && targetBranch == old(targetBranch)
    {
      isCreatingPR := true;
      request := PullRequestCall(RequestBody(prTitle, prDescription, targetBranch), targetBranch);
    }

    /** The second half: success navigates to the target branch; the dialog
      fields are left as they are either way. */
    method CompleteCreate(request: PullRequestCall, success: bool, errorMessage: string) returns (effect: Effect)
      modifies this
      ensures !isCreatingPR
      ensures effect == if success then Effect(Some(request.targetBranch), None) else Effect(None, Some(errorMessage))
      ensures prTitle == old(prTitle) && prDescription == old(prDescription) && targetBranch == old(targetBranch)
    {
      effect := if success then Effect(Some(request.targetBranch), None) else Effect(None, Some(errorMessage));
      isCreatingPR := false;
    }
  }
}
