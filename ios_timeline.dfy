/**
 * The networked client's timeline: pages of posts fetched from the server, a load-more
 * trigger at the last post, and the sympathy toggle. Each request is returned to the caller,
 * which delivers the response and the completion through the methods below in that order.
 */
module IosTimeline {
  import opened Wrappers
  import opened IosModels

  datatype SortOption = Recent | Popular

  function SortRawValue(s: SortOption): string {
    match s
    case Recent => "recent"
    case Popular => "popular"
  }

  /** What `fetchPosts` is asked for. */
  datatype FetchRequest = FetchRequest(page: int, category: Option<string>, sort: string)

  /** Which sympathy call the toggle makes. */
  datatype SympathyRequest = AddSympathy(postId: int) | RemoveSympathy(postId: int)

  /** `posts.firstIndex(where: { $0.id == postId })`. */
  function FirstIndexOfPost(posts: seq<Post>, postId: int): (r: Option<nat>)
    ensures r.Some? ==> r.value < |posts| && posts[r.value].id == postId
                        && forall k | 0 <= k < r.value :: posts[k].id != postId
    ensures r.None? ==> forall k | 0 <= k < |posts| :: posts[k].id != postId
  {
    if posts == [] then None
    else if posts[0].id == postId then Some(0)
    else match FirstIndexOfPost(posts[1..], postId)
      case Some(i) => Some(i + 1)
      case None => None
  }

  /** The transform a sympathy response applies: the server's count and the flipped flag. */
  function Sympathized(p: Post, sympathyCount: int, flag: bool): (q: Post)
    ensures q.id == p.id && q.sympathyCount == sympathyCount && q.hasSympathized == Some(flag)
    ensures q.(sympathyCount := p.sympathyCount, hasSympathized := p.hasSympathized) == p
  {
    p.(sympathyCount := sympathyCount, hasSympathized := Some(flag))
  }

  class TimelineViewModel {
    var posts: seq<Post>
    var isLoading: bool
    var isLoadingMore: bool
    var errorMessage: Option<string>
    var selectedCategory: Option<PostCategory>
    var selectedSort: SortOption
    var currentPage: int
    var totalPages: int

    constructor()
      ensures posts == [] && !isLoading && !isLoadingMore && errorMessage.None?
      ensures selectedCategory.None? && selectedSort == Recent && currentPage == 1 && totalPages == 1
    {
      posts, isLoading, isLoadingMore, errorMessage := [], false, false, None;
      selectedCategory, selectedSort, currentPage, totalPages := None, Recent, 1, 1;
    }

    /** The request for the current page, category and order. */
    function CurrentRequest(): (r: FetchRequest)
      reads this
      ensures r.page == currentPage && r.sort == SortRawValue(selectedSort)
      ensures r.category.Some? <==> selectedCategory.Some?
      ensures selectedCategory.Some? ==> r.category == Some(RawValue(selectedCategory.value))
    {
      FetchRequest(currentPage, if selectedCategory.Some? then Some(RawValue(selectedCategory.value)) else None,
                   SortRawValue(selectedSort))
    }

    /** `loadPosts(refresh:)`: nothing while a load runs; a refresh starts again from page one
      * with no posts; then the load starts with no error. */
    method LoadPosts(refresh: bool) returns (request: Option<FetchRequest>)
      modifies this
      ensures old(isLoading) ==> unchanged(this) && request.None?
      ensures !old(isLoading) ==>
        isLoading && errorMessage.None? && request == Some(CurrentRequest())
        && (refresh ==> currentPage == 1 && posts == [])
        && (!refresh ==> currentPage == old(currentPage) && posts == old(posts))
      ensures totalPages == old(totalPages) && isLoadingMore == old(isLoadingMore)
      ensures selectedCategory == old(selectedCategory) && selectedSort == old(selectedSort)
    {
      if isLoading {
        return None;
      }
      if refresh {
        currentPage := 1;
        posts := [];
      }
      isLoading := true;
      errorMessage := None;
      request := Some(CurrentRequest());
    }

    /** The value handler of a load: a refresh replaces the posts, any other load appends the
      * page; the page count is the server's and the next page is one further. */
    method ReceivePosts(refresh: bool, response: PostsResponse)
      modifies this
      ensures posts == if refresh then response.posts else old(posts) + response.posts
      ensures totalPages == response.totalPages && currentPage == old(currentPage) + 1
      ensures isLoading == old(isLoading) && isLoadingMore == old(isLoadingMore)
      ensures errorMessage == old(errorMessage)
      ensures selectedCategory == old(selectedCategory) && selectedSort == old(selectedSort)
    {
      if refresh {
        posts := response.posts;
      } else {
        posts := posts + response.posts;
      }
      totalPages := response.totalPages;
      currentPage := currentPage + 1;
    }

    /** The completion handler of a load: the load is over, and a failure shows its text.
      * `isLoadingMore` is left as it is. */
    method ReceiveCompletion(failure: Option<string>)
      modifies this
      ensures !isLoading
      ensures errorMessage == if failure.Some? then failure else old(errorMessage)
      ensures posts == old(posts) && currentPage == old(currentPage) && totalPages == old(totalPages)
      ensures isLoadingMore == old(isLoadingMore)
      ensures selectedCategory == old(selectedCategory) && selectedSort == old(selectedSort)
    {
      isLoading := false;
      if failure.Some? {
        errorMessage := failure;
      }
    }

    /** Whether the shown post triggers a load-more: it is the last post, pages remain, and
      * no load-more has been started. */
    predicate LoadMoreAllowed(post: Post)
      reads this
    {
      posts != [] && posts[|posts| - 1].id == post.id && currentPage <= totalPages && !isLoadingMore
    }

    /** `loadMoreIfNeeded(post:)`: when allowed, the load-more flag is set and the next page is
      * loaded without a refresh. The flag is never cleared again, so once set no later call
      * loads anything. */
    method LoadMoreIfNeeded(post: Post) returns (request: Option<FetchRequest>)
      modifies this
      ensures !old(LoadMoreAllowed(post)) ==> unchanged(this) && request.None?
      ensures old(LoadMoreAllowed(post)) ==> isLoadingMore && posts == old(posts)
      ensures old(LoadMoreAllowed(post)) && old(isLoading) ==>
        request.None? && isLoading && errorMessage == old(errorMessage)
      ensures old(LoadMoreAllowed(post)) && !old(isLoading) ==>
        isLoading && errorMessage.None? && request == Some(old(CurrentRequest()))
      ensures currentPage == old(currentPage) && totalPages == old(totalPages)
      ensures selectedCategory == old(selectedCategory) && selectedSort == old(selectedSort)
      ensures old(isLoadingMore) ==> isLoadingMore
    {
      if !LoadMoreAllowed(post) {
        return None;
      }
      isLoadingMore := true;
      request := LoadPosts(false);
    }

    /** `toggleSympathy(for:)`: nothing without a signed-in user; otherwise the call that
      * removes a sympathy already given, or adds one. The sign-in state is given. */
    method ToggleSympathy(post: Post, isAuthenticated: bool) returns (request: Option<SympathyRequest>)
      ensures !isAuthenticated ==> request.None?
      ensures isAuthenticated ==> request == Some(if post.hasSympathized == Some(true)
                                                  then RemoveSympathy(post.id) else AddSympathy(post.id))
    {
      if !isAuthenticated {
        return None;
      }
      var hasAlreadySympathized := if post.hasSympathized.Some? then post.hasSympathized.value else false;
      request := Some(if hasAlreadySympathized then RemoveSympathy(post.id) else AddSympathy(post.id));
    }

    /** The value handler of a sympathy call: the post takes the server's count and the flag
      * opposite to the one the toggle read. */
    method ReceiveSympathy(post: Post, sympathyCount: int)
      modifies this
      ensures posts == match FirstIndexOfPost(old(posts), post.id)
        case Some(i) => old(posts)[i := Sympathized(old(posts)[i], sympathyCount, post.hasSympathized != Some(true))]
        case None => old(posts)
      ensures isLoading == old(isLoading) && isLoadingMore == old(isLoadingMore)
      ensures currentPage == old(currentPage) && totalPages == old(totalPages)
      ensures errorMessage == old(errorMessage)
      ensures selectedCategory == old(selectedCategory) && selectedSort == old(selectedSort)
    {
      var hasAlreadySympathized := if post.hasSympathized.Some? then post.hasSympathized.value else false;
      UpdatePost(post.id, (p: Post) => Sympathized(p, sympathyCount, !hasAlreadySympathized));
    }

    /** `updatePost(postId:transform:)`: the first post with the id is transformed; every other
      * position, and the list's length, stay. */
    method UpdatePost(postId: int, transform: Post -> Post)
      modifies this
      ensures posts == match FirstIndexOfPost(old(posts), postId)
        case Some(i) => old(posts)[i := transform(old(posts)[i])]
        case None => old(posts)
      ensures |posts| == |old(posts)|
      ensures forall k | 0 <= k < |posts| && old(posts)[k].id != postId :: posts[k] == old(posts)[k]
      ensures isLoading == old(isLoading) && isLoadingMore == old(isLoadingMore)
      ensures currentPage == old(currentPage) && totalPages == old(totalPages)
      ensures errorMessage == old(errorMessage)
      ensures selectedCategory == old(selectedCategory) && selectedSort == old(selectedSort)
    {
      match FirstIndexOfPost(posts, postId) {
        case Some(index) =>
          posts := posts[index := transform(posts[index])];
        case None =>
      }
    }

    /** `changeCategory(_:)`: the choice is stored and the first page reloaded. */
    method ChangeCategory(category: Option<PostCategory>) returns (request: Option<FetchRequest>)
      modifies this
      ensures selectedCategory == category && selectedSort == old(selectedSort)
      ensures isLoadingMore == old(isLoadingMore) && totalPages == old(totalPages) && isLoading
      ensures !old(isLoading) ==> currentPage == 1 && posts == [] && errorMessage.None?
      ensures !old(isLoading) ==>
        request == Some(FetchRequest(1, if category.Some? then Some(RawValue(category.value)) else None,
                                     SortRawValue(selectedSort)))
      ensures old(isLoading) ==> request.None? && posts == old(posts) && currentPage == old(currentPage)
                                 && errorMessage == old(errorMessage)
    {
      selectedCategory := category;
      request := LoadPosts(true);
    }

    /** `changeSort(_:)`: the choice is stored and the first page reloaded. */
    method ChangeSort(sort: SortOption) returns (request: Option<FetchRequest>)
      modifies this
      ensures selectedSort == sort && selectedCategory == old(selectedCategory)
      ensures isLoadingMore == old(isLoadingMore) && totalPages == old(totalPages) && isLoading
      ensures !old(isLoading) ==> currentPage == 1 && posts == [] && errorMessage.None?
      ensures !old(isLoading) ==>
        request == Some(FetchRequest(1, if selectedCategory.Some? then Some(RawValue(selectedCategory.value)) else None,
                                     SortRawValue(sort)))
      ensures old(isLoading) ==> request.None? && posts == old(posts) && currentPage == old(currentPage)
                                 && errorMessage == old(errorMessage)
    {
      selectedSort := sort;
      request := LoadPosts(true);
    }
  }
}
