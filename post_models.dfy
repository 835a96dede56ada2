/** Pay grades ("posts"): the stored record `PostDb` with its validating constructor, and the
    converters between it and the core models `Post` and `CreatePost`. */
module PostModels {
  import opened Common
  import opened HistoryModels

  /** PostDb.cs: the salary is a `decimal`, exact, so a real number here. */
  datatype PostDb = PostDb(id: Guid, title: string, salary: real, companyId: Guid, postHistories: seq<PostHistoryDb>)

  /** The parameterless constructor: an empty title, no histories, everything else at its default. */
  function EmptyPostDb(): (r: PostDb)
    ensures r.title == "" && r.postHistories == [] && r.salary == 0.0
  {
    PostDb(EmptyGuid, "", 0.0, EmptyGuid, [])
  }

  /** The validating constructor: the title is checked first, then the salary must be positive;
      a new record has no histories. */
  function NewPostDb(id: Guid, title: string, salary: real, companyId: Guid): (r: Result<PostDb>)
    ensures r.Success? <==> !IsBlank(title) && salary > 0.0
    ensures IsBlank(title) ==> r == Failure(InvalidArgument("title"))
    ensures !IsBlank(title) && salary <= 0.0 ==> r == Failure(InvalidArgument("salary"))
    ensures r.Success? ==> (r.value.id == id && r.value.title == title && r.value.salary == salary
                            && r.value.companyId == companyId && r.value.postHistories == [])
  {
    if IsBlank(title) then Failure(InvalidArgument("title"))
    else if salary <= 0.0 then Failure(InvalidArgument("salary"))
    else Success(PostDb(id, title, salary, companyId, []))
  }

  /** The record the parameterless constructor makes is one the validating constructor refuses. */
  lemma EmptyPostDbIsRejected()
    ensures var e := EmptyPostDb(); NewPostDb(e.id, e.title, e.salary, e.companyId).Failure?
  {
  }

  /** The core `Post`; its own checks are not part of this model. */
  datatype Post = Post(id: Guid, title: string, salary: real, companyId: Guid)

  /** The core `CreatePost`. */
  datatype CreatePost = CreatePost(title: string, salary: real, companyId: Guid)

  /** PostConverter, CreatePost overload: a fresh id, through the validating constructor. */
  function PostDbFromCreate(c: Option<CreatePost>, freshId: Guid): (r: Result<Option<PostDb>>)
    ensures c.None? ==> r == Success(None)
    ensures c.Some? ==> (r.Success? <==> !IsBlank(c.value.title) && c.value.salary > 0.0)
    ensures c.Some? && r.Failure? ==> r.error.InvalidArgument?
    ensures c.Some? && r.Success? ==> r.value == Some(PostDb(freshId, c.value.title, c.value.salary, c.value.companyId, []))
  {
    match c
    case None => Success(None)
    case Some(p) =>
      match NewPostDb(freshId, p.title, p.salary, p.companyId)
      case Failure(e) => Failure(e)
      case Success(d) => Success(Some(d))
  }

  /** PostConverter, Post overload: the id is kept, through the validating constructor. */
  function PostDbFromPost(p: Option<Post>): (r: Result<Option<PostDb>>)
    ensures p.None? ==> r == Success(None)
    ensures p.Some? ==> (r.Success? <==> !IsBlank(p.value.title) && p.value.salary > 0.0)
    ensures p.Some? && r.Success? ==> r.value == Some(PostDb(p.value.id, p.value.title, p.value.salary, p.value.companyId, []))
  {
    match p
    case None => Success(None)
    case Some(q) =>
      match NewPostDb(q.id, q.title, q.salary, q.companyId)
      case Failure(e) => Failure(e)
      case Success(d) => Success(Some(d))
  }

  /** PostConverter, PostDb overload: the four fields are copied, the histories dropped. */
  function PostFromDb(d: Option<PostDb>): (r: Option<Post>)
    ensures r.None? <==> d.None?
    ensures d.Some? ==> (r.value.id == d.value.id && r.value.title == d.value.title
                         && r.value.salary == d.value.salary && r.value.companyId == d.value.companyId)
  {
    match d
    case None => None
    case Some(x) => Some(Post(x.id, x.title, x.salary, x.companyId))
  }

  /** PostDb -> Post -> PostDb keeps id, title, salary and company exactly when the record would
      pass the validating constructor; otherwise the second step fails. */
  lemma {:induction false} PostDbRoundTrip(d: PostDb)
    ensures PostDbFromPost(PostFromDb(Some(d))).Success? <==> !IsBlank(d.title) && d.salary > 0.0
    ensures PostDbFromPost(PostFromDb(Some(d))).Success? ==>
              var e := PostDbFromPost(PostFromDb(Some(d))).value.value;
              e.id == d.id && e.title == d.title && e.salary == d.salary && e.companyId == d.companyId
  {
    var p := PostFromDb(Some(d));
    assert p.value == Post(d.id, d.title, d.salary, d.companyId);
  }

  /** Post -> PostDb -> Post is the identity on posts that pass the constructor's checks. */
  lemma {:induction false} PostRoundTrip(p: Post)
    requires !IsBlank(p.title) && p.salary > 0.0
    ensures PostDbFromPost(Some(p)).Success?
    ensures PostFromDb(PostDbFromPost(Some(p)).value) == Some(p)
  {
    assert PostDbFromPost(Some(p)).value == Some(PostDb(p.id, p.title, p.salary, p.companyId, []));
  }
}
