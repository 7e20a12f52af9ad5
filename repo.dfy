/** `getRepo` (lib/repo.ts): the repository record the application loads
    for an owner and repository, with every branch name, read from GitHub
    one page of 100 branches at a time.

    Session, token and GitHub are inputs: the session and token as values,
    the repository request as its response, and the branch listing as the
    sequence of responses GitHub gives for pages 1, 2, ...; a page past the
    end of that sequence is empty. */
module RepoLib {
  import opened Common

  const PerPage := 100

  /** The `Repo` record (types/repo.ts). */
  datatype Repo = Repo(
    id: int, owner: string, ownerId: int, repo: string,
    defaultBranch: string, branches: seq<string>, isPrivate: bool)

  /** What `repos.get` returned: the fields the record takes, or an error
      with its HTTP status when it has one. */
  datatype RepoResponse =
    | RepoData(id: int, ownerLogin: string, ownerId: int, name: string, defaultBranch: string, isPrivate: bool)
    | RepoError(status: Option<int>)

  /** One `listBranches` response: the branch names on the page, or an error. */
  datatype PageResponse = Page(names: seq<string>) | PageError(status: Option<int>)

  function PageAt(pages: seq<PageResponse>, page: int): PageResponse {
    if 1 <= page <= |pages| then pages[page - 1] else Page([])
  }

  /** Another page is requested only after a page of exactly 100. */
  predicate IsFull(response: PageResponse) {
    response.Page? && |response.names| == PerPage
  }

  /** What the listing loop ends with: the names gathered, or the error that
      left it. */
  datatype Listing = Names(names: seq<string>) | ListError(status: Option<int>)

  /** The listing from `page` on: an error ends it, an empty or short page
      is the last one, a full page is followed by the next. */
  function Collect(pages: seq<PageResponse>, page: int): (r: Listing)
    requires 1 <= page
    decreases if page <= |pages| then |pages| - page + 1 else 0
  {
    var response := PageAt(pages, page);
    if response.PageError? then ListError(response.status)
    else if response.names == [] then Names([])
    else if |response.names| == PerPage then
      match Collect(pages, page + 1)
      case Names(rest) => Names(response.names + rest)
      case ListError(status) => ListError(status)
    else Names(response.names)
  }

  function Prepend(prefix: seq<string>, listing: Listing): Listing {
    match listing
    case Names(rest) => Names(prefix + rest)
    case ListError(status) => ListError(status)
  }

  /** The number of the last page the listing from `page` requests. */
  function LastRequested(pages: seq<PageResponse>, page: int): (r: int)
    requires 1 <= page
    ensures r >= page
    decreases if page <= |pages| then |pages| - page + 1 else 0
  {
    if IsFull(PageAt(pages, page)) then LastRequested(pages, page + 1) else page
  }

  /** The `while (hasMore)` loop: pages are requested in order from page 1
      and the loop stops after the first page that is not full. It returns
      the listing and the number of pages requested. */
  method ListBranches(pages: seq<PageResponse>) returns (listing: Listing, requested: int)
    ensures listing == Collect(pages, 1)
    ensures requested == LastRequested(pages, 1)
    ensures forall k :: 1 <= k < requested ==> IsFull(PageAt(pages, k))
    ensures !IsFull(PageAt(pages, requested))
  {
    var branches: seq<string> := [];
    var hasMore := true;
    var page := 1;
    listing := Names([]);
    while hasMore
      invariant 1 <= page
      invariant forall k :: 1 <= k < page ==> IsFull(PageAt(pages, k))
      invariant hasMore ==> Collect(pages, 1) == Prepend(branches, Collect(pages, page))
      invariant LastRequested(pages, 1) == LastRequested(pages, page)
      invariant !hasMore ==> listing == Collect(pages, 1) && !IsFull(PageAt(pages, page))
      decreases if hasMore then (if page <= |pages| then |pages| - page + 2 else 1) else 0
    {
      var response := PageAt(pages, page);
      if response.PageError? {
        listing := ListError(response.status);
        hasMore := false;
      } else if response.names == [] {
        assert branches + [] == branches;
        listing := Names(branches);
        hasMore := false;
      } else {
        branches := branches + response.names;
        hasMore := |response.names| == PerPage;
        if hasMore {
          page := page + 1;
        } else {
          listing := Names(branches);
        }
      }
    }
    requested := page;
  }

  /** Concatenated names of the pages. */
  function Flatten(pages: seq<PageResponse>): seq<string> {
    if pages == [] then []
    else (if pages[0].Page? then pages[0].names else []) + Flatten(pages[1..])
  }

  /** Full pages up to a short one give exactly those pages' names, in page
      order. */
  lemma {:induction false} CollectFrom(pages: seq<PageResponse>, page: int, last: int)
    requires 1 <= page <= last <= |pages|
    requires forall k :: page <= k < last ==> IsFull(PageAt(pages, k))
    requires PageAt(pages, last).Page? && |PageAt(pages, last).names| < PerPage
    ensures Collect(pages, page) == Names(Flatten(pages[page - 1..last]))
    decreases last - page
  {
    var here := pages[page - 1];
    assert pages[page - 1..last][0] == here;
    assert pages[page - 1..last][1..] == pages[page..last];
    if page < last {
      CollectFrom(pages, page + 1, last);
    } else {
      assert pages[page..last] == [];
    }
  }

  /** The loop stops at the first page that is not full: with every page
      before page `last` full and page `last` short, the names are those of
      pages 1 to `last`, and no later page makes a difference. */
  lemma StopsAtShortPage(pages: seq<PageResponse>, later: seq<PageResponse>, last: int)
    requires 1 <= last <= |pages|
    requires forall k :: 1 <= k < last ==> IsFull(PageAt(pages, k))
    requires PageAt(pages, last).Page? && |PageAt(pages, last).names| < PerPage
    ensures Collect(pages, 1) == Names(Flatten(pages[..last]))
    ensures Collect(pages + later, 1) == Collect(pages, 1)
  {
    CollectFrom(pages, 1, last);
    var all := pages + later;
    assert forall k :: 1 <= k <= last ==> PageAt(all, k) == PageAt(pages, k);
    CollectFrom(all, 1, last);
    assert all[..last] == pages[..last];
  }

  /** An error on any page requested ends the listing with that error. */
  lemma {:induction false} ErrorEndsListing(pages: seq<PageResponse>, page: int, last: int)
    requires 1 <= page <= last <= |pages|
    requires forall k :: page <= k < last ==> IsFull(PageAt(pages, k))
    requires PageAt(pages, last).PageError?
    ensures Collect(pages, page) == ListError(PageAt(pages, last).status)
    decreases last - page
  {
    if page < last {
      ErrorEndsListing(pages, page + 1, last);
    }
  }

  /** The outcome of `getRepo`. */
  datatype Outcome =
    | RedirectToSignIn
    | Found(repo: Repo)
    | NoRepo
    | Raised(status: Option<int>, message: string)

  /** 404 and 403 mean no repository (or no access); any other error is
      rethrown. */
  function CatchError(status: Option<int>): (r: Outcome)
    ensures r == NoRepo <==> status == Some(404) || status == Some(403)
    ensures r != NoRepo ==> r.Raised? && r.status == status
  {
    if status == Some(404) || status == Some(403) then NoRepo else Raised(status, "")
  }

  /** `getRepo` as a function of its inputs. `token` is `getToken`'s result;
      an empty token counts as missing. */
  function GetRepo(hasSession: bool, token: Option<string>, repoResponse: RepoResponse, pages: seq<PageResponse>): (r: Outcome)
    ensures !hasSession ==> r == RedirectToSignIn
    ensures hasSession && (token.None? || token.value == []) ==> r == Raised(None, "Token not found")
    ensures r.Found? ==> r.repo.branches != [] && repoResponse.RepoData? && Collect(pages, 1) == Names(r.repo.branches)
  {
    if !hasSession then RedirectToSignIn
    else if token.None? || token.value == [] then Raised(None, "Token not found")
    else if repoResponse.RepoError? then CatchError(repoResponse.status)
    else
      match Collect(pages, 1)
      case ListError(status) => CatchError(status)
      case Names(names) =>
        if names == [] then NoRepo
        else Found(Repo(repoResponse.id, repoResponse.ownerLogin, repoResponse.ownerId, repoResponse.name,
          repoResponse.defaultBranch, names, repoResponse.isPrivate))
  }

  /** A repository whose first page is empty has no record. */
  lemma NoBranchesNoRepo(token: string, repoResponse: RepoResponse, pages: seq<PageResponse>)
    requires token != [] && repoResponse.RepoData? && PageAt(pages, 1) == Page([])
    ensures GetRepo(true, Some(token), repoResponse, pages) == NoRepo
  {
  }

  /** The handler itself: the early returns, the repository request, the
      listing loop and the error mapping. */
  method LoadRepo(hasSession: bool, token: Option<string>, repoResponse: RepoResponse, pages: seq<PageResponse>)
    returns (result: Outcome)
    ensures result == GetRepo(hasSession, token, repoResponse, pages)
  {
    if !hasSession {
      return RedirectToSignIn;
    }
    if token.None? || token.value == [] {
      return Raised(None, "Token not found");
    }
    if repoResponse.RepoError? {
      return CatchError(repoResponse.status);
    }
    var listing, _ := ListBranches(pages);
    if listing.ListError? {
      return CatchError(listing.status);
    }
    if listing.names == [] {
      return NoRepo;
    }
    result := Found(Repo(repoResponse.id, repoResponse.ownerLogin, repoResponse.ownerId, repoResponse.name,
      repoResponse.defaultBranch, listing.names, repoResponse.isPrivate));
  }
}
