/** The route policies of api/user_policy.go, api/post_policy.go,
    api/post_comment_policy.go, api/post_detail_policy.go, api/category_policy.go and
    api/logout_policy.go: each binds a (controller, method) pair and a callback to
    `Authorization.Apply`. */
module Policies {
  import Util
  import Authorization

  /** One policy method. */
  datatype Policy =
    | UserIndex | UserShow | UserCreate | UserUpdate | UserDelete
    | PostCreate | PostDelete
    | PostCommentCreate | PostCommentDelete
    | PostDetailCreate
    | CategoryCreate | CategoryUpdate | CategoryDelete
    | LogoutCreate

  /** The columns of `model.Post` that `GetPost` scans. */
  datatype Post = Post(id: int, authorId: int)

  /** The columns of `model.PostComment` the ownership check reads. */
  datatype Comment = Comment(id: int, postId: int, userId: int)

  /** What a request shows the callbacks: its URL parameters and the ID of the auth
      context stored on it. */
  datatype Request = Request(userIdParam: string, postIdParam: string, commentIdParam: string, ctxAuthId: int)

  /** The rows the policy lookups find: the post a `postID` parameter names (by ID text
      or by its latest slug) and the comment a (`postID`, `commentID`) pair names. */
  datatype Store = Store(posts: map<string, Post>, comments: map<(string, string), Comment>)

  /** The (controller, method) pair each policy passes to `Apply`. */
  function Binding(p: Policy): (string, string)
  {
    match p
    case UserIndex => ("UserController", "Index")
    case UserShow => ("UserController", "Show")
    case UserCreate => ("UserController", "Create")
    case UserUpdate => ("UserController", "Update")
    case UserDelete => ("UserController", "Delete")
    case PostCreate => ("PostController", "Create")
    case PostDelete => ("PostController", "Delete")
    case PostCommentCreate => ("PostCommentController", "Create")
    case PostCommentDelete => ("PostCommentController", "Delete")
    case PostDetailCreate => ("PostDetailController", "Create")
    case CategoryCreate => ("CategoryController", "Create")
    case CategoryUpdate => ("CategoryController", "Update")
    case CategoryDelete => ("CategoryController", "Delete")
    case LogoutCreate => ("LogoutController", "Create")
  }

  /** `PostPolicy.GetPost`: the scanned post, or the zero post when the row lookup fails;
      never nil. */
  function GetPost(s: Store, postIdParam: string): (post: Post)
    ensures postIdParam in s.posts ==> post == s.posts[postIdParam]
    ensures postIdParam !in s.posts ==> post.id == 0 && post.authorId == 0
  {
    if postIdParam in s.posts then s.posts[postIdParam] else Post(0, 0)
  }

  /** `PostCommentPolicy.GetComment`: the scanned comment, or the zero comment when the
      lookup fails; never nil. */
  function GetComment(s: Store, postIdParam: string, commentIdParam: string): (c: Comment)
    ensures (postIdParam, commentIdParam) in s.comments ==> c == s.comments[(postIdParam, commentIdParam)]
    ensures (postIdParam, commentIdParam) !in s.comments ==> c.id == 0 && c.postId == 0 && c.userId == 0
  {
    if (postIdParam, commentIdParam) in s.comments then s.comments[(postIdParam, commentIdParam)]
    else Comment(0, 0, 0)
  }

  /** The URL `userID` parses (base 10, 64 bits) to the API's caller. */
  predicate IsSelf(userIdParam: string, apiAuth: Authorization.AuthContext)
  {
    var p := Util.ParseInt(userIdParam);
    !p.failed && p.value == apiAuth.id
  }

  /** The callback each policy passes to `Apply`. `apiAuth` is the API's `Auth` (the
      caller `Apply` and `gen` also use); post and comment ownership is checked against
      the auth context of the request instead. */
  function Callback(p: Policy, req: Request, apiAuth: Authorization.AuthContext, s: Store): bool
  {
    match p
    case UserShow => IsSelf(req.userIdParam, apiAuth)
    case UserUpdate => IsSelf(req.userIdParam, apiAuth)
    case PostDelete => GetPost(s, req.postIdParam).authorId == req.ctxAuthId
    case PostDetailCreate => GetPost(s, req.postIdParam).authorId == req.ctxAuthId
    case PostCommentDelete => GetComment(s, req.postIdParam, req.commentIdParam).userId == req.ctxAuthId
    case LogoutCreate => Util.ParseIntFlag(req.userIdParam).0 == apiAuth.id
    case _ => true
  }

  /** The decision and the cache after a request through the policy's `Apply` handler. */
  function Outcome(p: Policy, cache: map<string, string>, req: Request, apiAuth: Authorization.AuthContext,
                   s: Store, t: Authorization.Tables, dbUp: bool): (r: (Authorization.Decision, map<string, string>))
  {
    var (controller, action) := Binding(p);
    if apiAuth.role == "superadmin" then (Authorization.RunNext, cache)
    else
      var g := Authorization.GenNext(cache, Authorization.PermissionPrefix(), apiAuth, controller, action, t, dbUp);
      (Authorization.Decide(apiAuth.role, g.0, Callback(p, req, apiAuth, s)), g.1)
  }

  /** No controller or method name holds ':'. */
  lemma BindingNamesFree(p: Policy)
    ensures ':' !in Binding(p).0 && ':' !in Binding(p).1
  {
    match p
    case UserIndex => case UserShow => case UserCreate => case UserUpdate => case UserDelete =>
    case PostCreate => case PostDelete => case PostCommentCreate => case PostCommentDelete =>
    case PostDetailCreate => case CategoryCreate => case CategoryUpdate => case CategoryDelete =>
    case LogoutCreate =>
  }

  /** Every policy method is bound to its own route. */
  lemma BindingInjective(p: Policy, q: Policy)
    requires Binding(p) == Binding(q)
    ensures p == q
  {
    match p
    case UserIndex => case UserShow => case UserCreate => case UserUpdate => case UserDelete =>
    case PostCreate => case PostDelete => case PostCommentCreate => case PostCommentDelete =>
    case PostDetailCreate => case CategoryCreate => case CategoryUpdate => case CategoryDelete =>
    case LogoutCreate =>
  }

  /** No two policy methods share a permission cache key. */
  lemma {:induction false} BindingsDistinct(p: Policy, q: Policy, a: Authorization.AuthContext)
    requires ':' !in a.role && Util.IsInt64(a.id)
    requires p != q
    ensures Authorization.CacheKey(Authorization.PermissionPrefix(), a, Binding(p).0, Binding(p).1) !=
      Authorization.CacheKey(Authorization.PermissionPrefix(), a, Binding(q).0, Binding(q).1)
  {
    var (c1, m1) := Binding(p);
    var (c2, m2) := Binding(q);
    BindingNamesFree(p);
    BindingNamesFree(q);
    if Authorization.CacheKey(Authorization.PermissionPrefix(), a, c1, m1) ==
       Authorization.CacheKey(Authorization.PermissionPrefix(), a, c2, m2) {
      Authorization.CacheKeyInjective(a, c1, m1, a, c2, m2);
      BindingInjective(p, q);
    }
  }

  /** The callbacks that always answer true: their routes depend on `Apply` alone, that
      is on the superadmin role or a permission grant. */
  predicate OpenRoute(p: Policy)
  {
    p.UserIndex? || p.UserCreate? || p.UserDelete? || p.PostCreate? || p.PostCommentCreate? ||
    p.CategoryCreate? || p.CategoryUpdate? || p.CategoryDelete?
  }

  lemma {:induction false} OpenRoutesNeedOnlyPermission(p: Policy, cache: map<string, string>, req: Request,
                                  apiAuth: Authorization.AuthContext, s: Store, t: Authorization.Tables, dbUp: bool)
    requires OpenRoute(p)
    ensures Outcome(p, cache, req, apiAuth, s, t, dbUp).0 == Authorization.RunNext <==>
      apiAuth.role == "superadmin" ||
      Authorization.CacheKey(Authorization.PermissionPrefix(), apiAuth, Binding(p).0, Binding(p).1) in cache ||
      (dbUp && Authorization.Granted(t, apiAuth, Binding(p).0, Binding(p).1))
  {
    assert Callback(p, req, apiAuth, s);
  }

  /** `Show` and `Update` for a `userID` rendered from an int64 allow exactly the caller
      itself. */
  lemma UserSelfAccess(p: Policy, req: Request, apiAuth: Authorization.AuthContext, s: Store, id: int)
    requires p.UserShow? || p.UserUpdate?
    requires Util.IsInt64(id)
    ensures Callback(p, req.(userIdParam := Util.FormatInt(id)), apiAuth, s) <==> id == apiAuth.id
  {
    Util.ParseFormatInt(id);
  }

  /** A `userID` that `strconv.ParseInt` rejects with value 0 (a non-numeric one) denies
      `Show` and `Update`, while `Logout` compares the discarded value 0 with the caller
      and so lets a caller with ID 0 through. */
  lemma ParseFailureDiffers(req: Request, apiAuth: Authorization.AuthContext, s: Store)
    requires Util.ParseInt(req.userIdParam) == Util.Parsed(0, true)
    ensures !Callback(UserShow, req, apiAuth, s) && !Callback(UserUpdate, req, apiAuth, s)
    ensures Callback(LogoutCreate, req, apiAuth, s) <==> apiAuth.id == 0
  {
  }

  /** An ordinary non-numeric `userID`. */
  lemma NonNumericUserId(req: Request, apiAuth: Authorization.AuthContext, s: Store)
    requires req.userIdParam == "abc"
    ensures !Callback(UserShow, req, apiAuth, s)
    ensures Callback(LogoutCreate, req, apiAuth, s) <==> apiAuth.id == 0
  {
    Util.ParseIntExamples();
    ParseFailureDiffers(req, apiAuth, s);
  }

  /** Post ownership: `PostController.Delete` and `PostDetailController.Create` allow
      exactly the author of the post found, and a missing post behaves as a post by user
      0. */
  lemma PostOwnership(p: Policy, req: Request, apiAuth: Authorization.AuthContext, s: Store)
    requires p.PostDelete? || p.PostDetailCreate?
    ensures req.postIdParam in s.posts ==>
      (Callback(p, req, apiAuth, s) <==> s.posts[req.postIdParam].authorId == req.ctxAuthId)
    ensures req.postIdParam !in s.posts ==> (Callback(p, req, apiAuth, s) <==> req.ctxAuthId == 0)
    ensures Callback(PostDetailCreate, req, apiAuth, s) == Callback(PostDelete, req, apiAuth, s)
  {
  }

  /** Comment ownership: `PostCommentController.Delete` allows exactly the comment's
      author, whoever wrote the post; a missing comment behaves as one by user 0. */
  lemma CommentOwnership(req: Request, apiAuth: Authorization.AuthContext, s: Store)
    ensures (req.postIdParam, req.commentIdParam) in s.comments ==>
      (Callback(PostCommentDelete, req, apiAuth, s) <==>
       s.comments[(req.postIdParam, req.commentIdParam)].userId == req.ctxAuthId)
    ensures (req.postIdParam, req.commentIdParam) !in s.comments ==>
      (Callback(PostCommentDelete, req, apiAuth, s) <==> req.ctxAuthId == 0)
  {
  }

  /** The user policy tests: a "user" caller with permission for `Show` but not `Index`,
      and nothing cached, may show itself, may not show another user, and may not list
      users. */
  lemma UserRoleScenario(cache: map<string, string>, req: Request, apiAuth: Authorization.AuthContext,
                         s: Store, t: Authorization.Tables, other: int)
    requires apiAuth.role == "user" && Util.IsInt64(apiAuth.id) && Util.IsInt64(other) && other != apiAuth.id
    requires Authorization.Granted(t, apiAuth, "UserController", "Show")
    requires !Authorization.Granted(t, apiAuth, "UserController", "Index")
    requires Authorization.CacheKey(Authorization.PermissionPrefix(), apiAuth, "UserController", "Index") !in cache
    ensures Outcome(UserShow, cache, req.(userIdParam := Util.FormatInt(apiAuth.id)), apiAuth, s, t, true).0
      == Authorization.RunNext
    ensures Outcome(UserShow, cache, req.(userIdParam := Util.FormatInt(other)), apiAuth, s, t, true).0
      == Authorization.Forbidden(Authorization.StatusForbidden, "forbidden")
    ensures Outcome(UserIndex, cache, req, apiAuth, s, t, true).0
      == Authorization.Forbidden(Authorization.StatusForbidden, "forbidden")
  {
    UserSelfAccess(UserShow, req, apiAuth, s, apiAuth.id);
    UserSelfAccess(UserShow, req, apiAuth, s, other);
  }

  /** The post policy test: a non-superadmin deleting another author's post is forbidden,
      whatever the permissions and the cache say. */
  lemma ForeignPostDeleteForbidden(cache: map<string, string>, req: Request, apiAuth: Authorization.AuthContext,
                                   s: Store, t: Authorization.Tables, dbUp: bool)
    requires apiAuth.role != "superadmin"
    requires req.postIdParam in s.posts && s.posts[req.postIdParam].authorId != req.ctxAuthId
    ensures Outcome(PostDelete, cache, req, apiAuth, s, t, dbUp).0
      == Authorization.Forbidden(Authorization.StatusForbidden, "forbidden")
    ensures Outcome(PostDetailCreate, cache, req, apiAuth, s, t, dbUp).0
      == Authorization.Forbidden(Authorization.StatusForbidden, "forbidden")
  {
    PostOwnership(PostDelete, req, apiAuth, s);
  }
}
