/**
 * The Bitbucket Cloud REST client of the coverage-status plugin: how it builds URLs,
 * lists paginated collections, recognises its own comments and its earlier coverage
 * reports, and which requests it sends. The transport and the JSON codec are replaced
 * by what they return (`PageSource`, `UserReply`, `PostReply`); every request the
 * client sends is recorded in the ghost log `sent`.
 */
module Client {
  import opened Bitbucket
  import opened JavaStrings
  import opened Seqs
  import opened Pagination

  const V2ApiBaseUrl := "https://bitbucket.org/api/2.0/repositories/"
  const V2ApiUrl := "https://api.bitbucket.org/2.0"
  const PullRequestsPageLen := 50
  const CommentsPageLen := 100

  /**
   * Message.SHIELDS_BADGE_COVERAGE_URL: the badge URL every coverage report of the
   * plugin embeds. Its text is defined outside this model; nothing here depends on it.
   */
  const ShieldsBadgeCoverageUrl: string

  /** The endpoint that describes the authenticated user. */
  const UserUrl := V2ApiUrl + "/user"

  /**
   * The URL of `path` inside the repository `owner`/`repositoryName`: the API base, the
   * owner, one slash, the repository name and the path, nothing escaped or inserted.
   */
  function V2(owner: string, repositoryName: string, path: string): (url: string)
    ensures |url| == |V2ApiBaseUrl| + |owner| + 1 + |repositoryName| + |path|
    ensures url[..|V2ApiBaseUrl|] == V2ApiBaseUrl
    ensures url[|V2ApiBaseUrl|..|V2ApiBaseUrl| + |owner|] == owner
    ensures url[|V2ApiBaseUrl| + |owner|] == '/'
    ensures url[|V2ApiBaseUrl| + |owner| + 1..|url| - |path|] == repositoryName
    ensures url[|url| - |path|..] == path
  {
    V2ApiBaseUrl + owner + "/" + repositoryName + path
  }

  /** The first page of a listing: the collection URL with the page size as its only query parameter. */
  function PageUrl(rootUrl: string, pageLen: int): string {
    rootUrl + "?pagelen=" + DecimalString(pageLen)
  }

  function PullRequestsListUrl(owner: string, repositoryName: string): string {
    PageUrl(V2(owner, repositoryName, "/pullrequests/"), PullRequestsPageLen)
  }

  /** The comment collection of a pull request: listed with GET, added to with POST. */
  function CommentsUrl(owner: string, repositoryName: string, pullRequestId: string): string {
    V2(owner, repositoryName, "/pullrequests/" + pullRequestId + "/comments")
  }

  function CommentsListUrl(owner: string, repositoryName: string, pullRequestId: string): string {
    PageUrl(CommentsUrl(owner, repositoryName, pullRequestId), CommentsPageLen)
  }

  /** One comment of a pull request, the target of a DELETE: a child of the comment collection. */
  function CommentUrl(owner: string, repositoryName: string, pullRequestId: string, commentId: string): (url: string)
    ensures url == CommentsUrl(owner, repositoryName, pullRequestId) + "/" + commentId
  {
    V2(owner, repositoryName, "/pullrequests/" + pullRequestId + "/comments/" + commentId)
  }

  lemma PageSizesInDecimal()
    ensures DecimalString(PullRequestsPageLen) == "50"
    ensures DecimalString(CommentsPageLen) == "100"
  {
    assert Digits(50) == Digits(5) + [DigitChar(0)];
    assert Digits(100) == Digits(10) + [DigitChar(0)] && Digits(10) == Digits(1) + [DigitChar(0)];
  }

  /** The first request of each listing: pull requests fifty per page, comments a hundred per page. */
  lemma ListingUrls(owner: string, repositoryName: string, pullRequestId: string)
    ensures PullRequestsListUrl(owner, repositoryName) == V2(owner, repositoryName, "/pullrequests/") + "?pagelen=50"
    ensures CommentsListUrl(owner, repositoryName, pullRequestId)
         == V2(owner, repositoryName, "/pullrequests/" + pullRequestId + "/comments") + "?pagelen=100"
  {
    PageSizesInDecimal();
    var prs := V2(owner, repositoryName, "/pullrequests/");
    var comments := V2(owner, repositoryName, "/pullrequests/" + pullRequestId + "/comments");
    assert (prs + "?pagelen=") + "50" == prs + ("?pagelen=" + "50");
    assert (comments + "?pagelen=") + "100" == comments + ("?pagelen=" + "100");
  }

  /** Within one repository, different paths give different URLs. */
  lemma V2Injective(owner: string, repositoryName: string, path1: string, path2: string)
    requires V2(owner, repositoryName, path1) == V2(owner, repositoryName, path2)
    ensures path1 == path2
  {
    var prefix := V2ApiBaseUrl + owner + "/" + repositoryName;
    assert V2(owner, repositoryName, path1) == prefix + path1;
    assert V2(owner, repositoryName, path2) == prefix + path2;
    assert path1 == (prefix + path1)[|prefix|..];
    assert path2 == (prefix + path2)[|prefix|..];
  }

  /** Within one pull request, comments with different ids are deleted through different URLs. */
  lemma CommentUrlInjective(owner: string, repositoryName: string, pullRequestId: string, id1: int, id2: int)
    requires CommentUrl(owner, repositoryName, pullRequestId, DecimalString(id1))
          == CommentUrl(owner, repositoryName, pullRequestId, DecimalString(id2))
    ensures id1 == id2
  {
    var prefix := "/pullrequests/" + pullRequestId + "/comments/";
    V2Injective(owner, repositoryName, prefix + DecimalString(id1), prefix + DecimalString(id2));
    assert DecimalString(id1) == (prefix + DecimalString(id1))[|prefix|..];
    assert DecimalString(id2) == (prefix + DecimalString(id2))[|prefix|..];
    DecimalStringInjective(id1, id2);
  }

  /** The comment has an author, and that author's UUID equals `userUuid` ignoring case. */
  predicate IsOwnComment(comment: Comment, userUuid: string) {
    comment.author.Some? && EqualsIgnoreCase(comment.author.value.uuid, userUuid)
  }

  /** A global comment (no inline anchor) whose text carries the coverage badge: an earlier report. */
  predicate IsCoverageReport(comment: Comment) {
    comment.inline.None? && Contains(comment.content, ShieldsBadgeCoverageUrl)
  }

  /** The comments written by the user `userUuid`, in their listed order. */
  function OwnComments(comments: seq<Comment>, userUuid: string): (own: seq<Comment>)
    ensures forall c :: c in own ==>
              c in comments && c.author.Some? && EqualsIgnoreCase(c.author.value.uuid, userUuid)
    ensures forall c :: c in comments && c.author.Some? && EqualsIgnoreCase(c.author.value.uuid, userUuid) ==>
              c in own
  {
    Filter(comments, c => IsOwnComment(c, userUuid))
  }

  /** The comments of `ownComments` that are earlier coverage reports, in their listed order. */
  function CoverageReports(ownComments: seq<Comment>): (reports: seq<Comment>)
    ensures forall c :: c in reports ==>
              c in ownComments && c.inline.None? && Contains(c.content, ShieldsBadgeCoverageUrl)
    ensures forall c :: c in ownComments && c.inline.None? && Contains(c.content, ShieldsBadgeCoverageUrl) ==>
              c in reports
  {
    Filter(ownComments, IsCoverageReport)
  }

  /** One DELETE per comment, in order. */
  function DeleteRequests(owner: string, repositoryName: string, pullRequestId: string, comments: seq<Comment>): (requests: seq<Request>)
    ensures |requests| == |comments|
  {
    seq(|comments|, i requires 0 <= i < |comments| =>
      Delete(CommentUrl(owner, repositoryName, pullRequestId, DecimalString(comments[i].id))))
  }

  /** Comment ids identify comments: two listed comments with the same id are the same comment. */
  predicate IdsIdentify(comments: seq<Comment>) {
    forall c1, c2 :: c1 in comments && c2 in comments && c1.id == c2.id ==> c1 == c2
  }

  /** The comparison ignores case: two identities that differ only in case select the same comments. */
  lemma OwnCommentsIgnoreCase(comments: seq<Comment>, uuid1: string, uuid2: string)
    requires LowerAscii(uuid1) == LowerAscii(uuid2)
    ensures OwnComments(comments, uuid1) == OwnComments(comments, uuid2)
  {
    forall c | c in comments
      ensures IsOwnComment(c, uuid1) <==> IsOwnComment(c, uuid2)
    {
      if c.author.Some? {
        EqualsIgnoreCaseIffSameLower(c.author.value.uuid, uuid1);
        EqualsIgnoreCaseIffSameLower(c.author.value.uuid, uuid2);
      }
    }
    FilterCongruent(comments, c => IsOwnComment(c, uuid1), c => IsOwnComment(c, uuid2));
  }

  /** With the empty identity (a failed user lookup) only authors with an empty UUID count as own. */
  lemma OwnCommentsOfEmptyIdentity(comments: seq<Comment>)
    ensures forall c :: c in OwnComments(comments, "") ==> c.author.Some? && c.author.value.uuid == ""
  {
  }

  /**
   * The deletions for `ownComments`: a comment's URL is deleted exactly when the comment
   * is a global coverage report, and every deletion targets such a comment.
   */
  lemma DeletesExactlyCoverageReports(owner: string, repositoryName: string, pullRequestId: string,
                                      ownComments: seq<Comment>)
    requires IdsIdentify(ownComments)
    ensures var deletes := DeleteRequests(owner, repositoryName, pullRequestId, CoverageReports(ownComments));
      forall c :: c in ownComments ==>
        (Delete(CommentUrl(owner, repositoryName, pullRequestId, DecimalString(c.id))) in deletes
         <==> c.inline.None? && Contains(c.content, ShieldsBadgeCoverageUrl))
    ensures forall q :: q in DeleteRequests(owner, repositoryName, pullRequestId, CoverageReports(ownComments)) ==>
      exists c :: c in ownComments && IsCoverageReport(c)
                  && q == Delete(CommentUrl(owner, repositoryName, pullRequestId, DecimalString(c.id)))
  {
    var reports := CoverageReports(ownComments);
    var deletes := DeleteRequests(owner, repositoryName, pullRequestId, reports);
    forall c | c in ownComments
      ensures Delete(CommentUrl(owner, repositoryName, pullRequestId, DecimalString(c.id))) in deletes
              <==> IsCoverageReport(c)
    {
      var target := Delete(CommentUrl(owner, repositoryName, pullRequestId, DecimalString(c.id)));
      if IsCoverageReport(c) {
        var i :| 0 <= i < |reports| && reports[i] == c;
        assert deletes[i] == target;
      }
      if target in deletes {
        var i :| 0 <= i < |deletes| && deletes[i] == target;
        CommentUrlInjective(owner, repositoryName, pullRequestId, reports[i].id, c.id);
        assert reports[i] in ownComments;
      }
    }
    forall q | q in deletes
      ensures exists c :: c in ownComments && IsCoverageReport(c)
                          && q == Delete(CommentUrl(owner, repositoryName, pullRequestId, DecimalString(c.id)))
    {
      var i :| 0 <= i < |deletes| && deletes[i] == q;
      assert reports[i] in reports;
    }
  }

  /**
   * Both filters together: of the listed comments, the client deletes exactly those that
   * are its own AND global AND carry the badge; failing any one condition keeps a comment.
   */
  lemma DeletesOnlyOwnCoverageReports(owner: string, repositoryName: string, pullRequestId: string,
                                      comments: seq<Comment>, userUuid: string)
    requires IdsIdentify(comments)
    ensures var deletes := DeleteRequests(owner, repositoryName, pullRequestId,
                                          CoverageReports(OwnComments(comments, userUuid)));
      forall c :: c in comments ==>
        (Delete(CommentUrl(owner, repositoryName, pullRequestId, DecimalString(c.id))) in deletes
         <==> IsOwnComment(c, userUuid) && IsCoverageReport(c))
  {
    var own := OwnComments(comments, userUuid);
    DeletesExactlyCoverageReports(owner, repositoryName, pullRequestId, own);
    var deletes := DeleteRequests(owner, repositoryName, pullRequestId, CoverageReports(own));
    forall c | c in comments
      ensures Delete(CommentUrl(owner, repositoryName, pullRequestId, DecimalString(c.id))) in deletes
              <==> IsOwnComment(c, userUuid) && IsCoverageReport(c)
    {
      var target := Delete(CommentUrl(owner, repositoryName, pullRequestId, DecimalString(c.id)));
      if target in deletes {
        var d :| d in own && IsCoverageReport(d)
                 && target == Delete(CommentUrl(owner, repositoryName, pullRequestId, DecimalString(d.id)));
        CommentUrlInjective(owner, repositoryName, pullRequestId, d.id, c.id);
      }
    }
  }

  lemma DeleteRequestsSnoc(owner: string, repositoryName: string, pullRequestId: string,
                           comments: seq<Comment>, c: Comment)
    ensures DeleteRequests(owner, repositoryName, pullRequestId, comments + [c])
         == DeleteRequests(owner, repositoryName, pullRequestId, comments)
            + [Delete(CommentUrl(owner, repositoryName, pullRequestId, DecimalString(c.id)))]
  {
  }

  lemma AppendAssociates(a: seq<Request>, b: seq<Request>, c: seq<Request>)
    ensures (a + b) + c == a + (b + c)
  {
  }

  /** What the user lookup's GET and its decoding produced. */
  datatype UserReply =
    | UserUnanswered       // the request failed; the transport logged it and gave back null
    | UserUnreadable       // the body was not a user object; the decoder threw an IOException
    | UserNull             // the body was the JSON literal null; the decoder returned null
    | UserFound(user: Author)

  /** The lookup as the source writes it: it either yields a UUID or lets a NullPointerException escape. */
  datatype LookupOutcome = Uuid(uuid: string) | NullPointerThrown

  /**
   * getLoggedInUserUUID as written: only an IOException is caught. A failed request
   * hands null to the decoder, which throws NullPointerException; a JSON null body makes
   * the decoder return null, whose getUuid() throws it too. Either escapes the constructor.
   */
  function LoggedInUserUuidAsWritten(reply: UserReply): (r: LookupOutcome)
    ensures r.NullPointerThrown? <==> reply.UserUnanswered? || reply.UserNull?
    ensures r.Uuid? && reply.UserFound? ==> r.uuid == reply.user.uuid
  {
    match reply
    case UserUnanswered => NullPointerThrown
    case UserUnreadable => Uuid("")
    case UserNull => NullPointerThrown
    case UserFound(user) => Uuid(user.uuid)
  }

  /** A timed-out or refused user lookup makes the client's construction throw. */
  lemma UnansweredLookupThrows()
    ensures LoggedInUserUuidAsWritten(UserUnanswered) == NullPointerThrown
  {
  }

  /** The lookup as intended: any failure yields the empty identity and nothing is thrown. */
  function LoggedInUserUuid(reply: UserReply): (uuid: string)
    ensures reply.UserFound? ==> uuid == reply.user.uuid
    ensures !reply.UserFound? ==> uuid == ""
  {
    if reply.UserFound? then reply.user.uuid else ""
  }

  /** Where the source's lookup returns normally, the intended lookup returns the same identity. */
  lemma LookupAgreesWhereSourceReturns(reply: UserReply)
    ensures LoggedInUserUuidAsWritten(reply).Uuid? ==> LoggedInUserUuidAsWritten(reply).uuid == LoggedInUserUuid(reply)
  {
  }

  /** What posting a comment and decoding the response produced. */
  datatype PostReply =
    | PostUnanswered                     // the request failed; the transport gave back null
    | PostUnreadable                     // the body did not decode as a comment
    | PostDecoded(created: Option<Comment>)   // decoded; None for a JSON null body

  /** The result of postPullRequestComment: the created comment, or null on any failure. */
  function CreatedComment(reply: PostReply): (created: Option<Comment>)
    ensures created.Some? ==> reply.PostDecoded? && created == reply.created
    ensures reply.PostDecoded? ==> created == reply.created
    ensures !reply.PostDecoded? ==> created.None?
  {
    match reply
    case PostDecoded(c) => c
    case _ => None
  }

  /** The basic-auth credential pair sent with every request. */
  datatype Credentials = Credentials(username: string, password: string)

  /**
   * A client bound to one repository. The fields are set once, by the constructor; the
   * only state that changes afterwards is the log of requests sent.
   */
  class ApiClient {
    const owner: string
    const repositoryName: string
    const credentials: Credentials
    const name: string
    /** The UUID of the authenticated user, looked up once while the client is built. */
    const userUuid: string
    /** Every request this client has sent, oldest first. */
    ghost var sent: seq<Request>

    constructor (username: string, password: string, owner: string, repositoryName: string,
                 key: string, name: string, userReply: UserReply)
      ensures this.owner == owner && this.repositoryName == repositoryName && this.name == name
      ensures credentials == Credentials(username, password)
      ensures userUuid == LoggedInUserUuid(userReply)
      ensures sent == [Get(UserUrl)]
    {
      credentials := Credentials(username, password);
      this.owner := owner;
      this.repositoryName := repositoryName;
      this.name := name;
      userUuid := LoggedInUserUuid(userReply);
      sent := [Get(UserUrl)];
    }

    /**
     * Lists a paginated collection: requests the first page, appends its items, follows
     * `next` until a page has none, and on a failed request returns what it has so far.
     */
    method GetAllValues<T(==)>(rootUrl: string, pageLen: int, source: PageSource<T>, ghost bound: nat)
      returns (values: seq<T>)
      requires EndsWithin(source, PageUrl(rootUrl, pageLen), bound)
      modifies this
      ensures values == ValuesOf(Trace(source, PageUrl(rootUrl, pageLen), bound))
      ensures sent == old(sent) + Gets(Trace(source, PageUrl(rootUrl, pageLen), bound))
    {
      values := [];
      var url: Option<string> := Some(PageUrl(rootUrl, pageLen));
      ghost var walk := Trace(source, url.value, bound);
      ghost var done: seq<Fetch<T>> := [];
      ghost var n := bound;
      while url.Some?
        invariant url.Some? ==> EndsWithin(source, url.value, n) && walk == done + Trace(source, url.value, n)
        invariant url.None? ==> walk == done
        invariant values == ValuesOf(done)
        invariant sent == old(sent) + Gets(done)
        decreases n
      {
        var current := url.value;
        var reply := source(current);
        ListingStep(source, walk, done, current, n);
        AppendAssociates(old(sent), Gets(done), [Get(current)]);
        sent := sent + [Get(current)];
        done := done + [Fetch(current, reply)];
        if reply.None? {
          // the exception leaves the loop; the items gathered so far are returned
          break;
        }
        values := values + reply.value.values;
        url := reply.value.next;
        n := n - 1;
      }
    }

    /** All open pull requests of the repository, fifty per page. */
    method GetPullRequests(source: PageSource<PullRequest>, ghost bound: nat) returns (pullRequests: seq<PullRequest>)
      requires EndsWithin(source, PullRequestsListUrl(owner, repositoryName), bound)
      modifies this
      ensures pullRequests == ValuesOf(Trace(source, PullRequestsListUrl(owner, repositoryName), bound))
      ensures sent == old(sent) + Gets(Trace(source, PullRequestsListUrl(owner, repositoryName), bound))
    {
      pullRequests := GetAllValues(V2(owner, repositoryName, "/pullrequests/"), PullRequestsPageLen, source, bound);
    }

    /** All comments of one pull request, a hundred per page. */
    method GetPullRequestComments(pullRequestId: string, source: PageSource<Comment>, ghost bound: nat)
      returns (comments: seq<Comment>)
      requires EndsWithin(source, CommentsListUrl(owner, repositoryName, pullRequestId), bound)
      modifies this
      ensures comments == ValuesOf(Trace(source, CommentsListUrl(owner, repositoryName, pullRequestId), bound))
      ensures sent == old(sent) + Gets(Trace(source, CommentsListUrl(owner, repositoryName, pullRequestId), bound))
    {
      comments := GetAllValues(CommentsUrl(owner, repositoryName, pullRequestId), CommentsPageLen, source, bound);
    }

    /** The comments of a pull request written by the authenticated user, in listed order. */
    method FindOwnPullRequestComments(pullRequestId: string, source: PageSource<Comment>, ghost bound: nat)
      returns (own: seq<Comment>)
      requires EndsWithin(source, CommentsListUrl(owner, repositoryName, pullRequestId), bound)
      modifies this
      ensures own == OwnComments(ValuesOf(Trace(source, CommentsListUrl(owner, repositoryName, pullRequestId), bound)), userUuid)
      ensures sent == old(sent) + Gets(Trace(source, CommentsListUrl(owner, repositoryName, pullRequestId), bound))
    {
      var comments := GetPullRequestComments(pullRequestId, source, bound);
      own := OwnComments(comments, userUuid);
    }

    /** Deletes, in list order, every comment of `ownComments` that is a global coverage report. */
    method DeletePreviousGlobalComments(pullRequestId: string, ownComments: seq<Comment>)
      modifies this
      ensures sent == old(sent) + DeleteRequests(owner, repositoryName, pullRequestId, CoverageReports(ownComments))
    {
      for i := 0 to |ownComments|
        invariant sent == old(sent) + DeleteRequests(owner, repositoryName, pullRequestId, CoverageReports(ownComments[..i]))
      {
        var comment := ownComments[i];
        assert ownComments[..i + 1] == ownComments[..i] + [comment];
        FilterAppend(ownComments[..i], [comment], IsCoverageReport);
        ghost var before := DeleteRequests(owner, repositoryName, pullRequestId, CoverageReports(ownComments[..i]));
        if comment.inline.None? && Contains(comment.content, ShieldsBadgeCoverageUrl) {
          DeleteRequestsSnoc(owner, repositoryName, pullRequestId, CoverageReports(ownComments[..i]), comment);
          AppendAssociates(old(sent), before, [Delete(CommentUrl(owner, repositoryName, pullRequestId, DecimalString(comment.id)))]);
          DeletePullRequestComment(pullRequestId, DecimalString(comment.id));
        }
      }
      assert ownComments[..|ownComments|] == ownComments;
    }

    method DeletePullRequestComment(pullRequestId: string, commentId: string)
      modifies this
      ensures sent == old(sent) + [Delete(CommentUrl(owner, repositoryName, pullRequestId, commentId))]
    {
      sent := sent + [Delete(CommentUrl(owner, repositoryName, pullRequestId, commentId))];
    }

    /** Posts a new comment; a failed request or an unreadable response yields None, never an exception. */
    method PostPullRequestComment(pullRequestId: string, content: string, reply: PostReply)
      returns (created: Option<Comment>)
      modifies this
      ensures sent == old(sent) + [Post(CommentsUrl(owner, repositoryName, pullRequestId), content)]
      ensures created == CreatedComment(reply)
    {
      sent := sent + [Post(CommentsUrl(owner, repositoryName, pullRequestId), content)];
      created := CreatedComment(reply);
    }
  }
}
