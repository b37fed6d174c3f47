/** The community forum: `POST /forum-post`, `GET /forum-posts`,
    `POST /forum-vote`, `GET /home-forum-posts` and `GET /forum-post/:id`. */
module Forum {
  import opened Wrappers
  import opened Http
  import opened Text
  import opened Seqs
  import opened Store
  import opened Users
  import opened Paging

  /** Filter `{ _id: new ObjectId(id) }` on `forumPosts`. */
  function PostWithId(id: Id): Post -> bool
  {
    (p: Post) => p.id == id
  }

  function PostCreatedAt(p: Post): int
  {
    p.createdAt
  }

  /** `POST /forum-post`: 400 unless title, content and author e-mail are all
      given; otherwise 201 and the body, stamped with the clock reading, at
      the end of the collection. `upvotes` and `downvotes` are the body's own
      vote arrays (empty when it has none). */
  function CreatePost(s: Store, title: string, content: string, authorEmail: string,
                      upvotes: set<string>, downvotes: set<string>, now: Time)
    : (r: Step<Inserted>)
    ensures title == "" || content == "" || authorEmail == "" ==>
              r == Step(s, Error(BAD_REQUEST, "Missing required fields"))
    ensures r.response.Reply? <==> title != "" && content != "" && authorEmail != ""
    ensures r.response.Reply? ==>
              && r.response == Reply(CREATED, Inserted(s.nextId))
              && |r.store.posts| == |s.posts| + 1
              && r.store.posts[..|s.posts|] == s.posts
              && r.store.posts[|s.posts|].id == s.nextId
              && r.store.posts[|s.posts|].authorEmail == authorEmail
              && r.store.posts[|s.posts|].createdAt == now
              && r.store.posts[|s.posts|].title == title
              && r.store.posts[|s.posts|].content == content
              && r.store.posts[|s.posts|].upvotes == upvotes
              && r.store.posts[|s.posts|].downvotes == downvotes
              && r.store == s.(posts := r.store.posts, nextId := s.nextId + 1)
  {
    if title == "" || content == "" || authorEmail == "" then
      Step(s, Error(BAD_REQUEST, "Missing required fields"))
    else
      var post := Post(s.nextId, title, content, authorEmail, now, upvotes, downvotes);
      Step(s.(posts := s.posts + [post], nextId := s.nextId + 1), Reply(CREATED, Inserted(post.id)))
  }

  /** `userMap[email] || 'member'` where `userMap` folds the users found by
      `{ email: { $in: emails } }`: the role of the LAST user with the
      e-mail, 'member' when there is none. */
  function ListedRole(users: seq<User>, email: string): (role: Role)
    ensures !Registered(users, email) ==> role == Member
    ensures Registered(users, email) ==>
              exists j :: 0 <= j < |users| && users[j].email == email && users[j].role == role
                && forall k :: j < k < |users| ==> users[k].email != email
  {
    match FindLast(users, UserAs(email))
    case None => Member
    case Some(j) => users[j].role
  }

  /** `user.displayName || user.name || 'Anonymous'`. */
  function DisplayName(u: User): (name: string)
    ensures name != ""
    ensures u.displayName != "" ==> name == u.displayName
    ensures u.displayName == "" && u.name != "" ==> name == u.name
    ensures u.displayName == "" && u.name == "" ==> name == "Anonymous"
  {
    Or(Or(u.displayName, u.name), "Anonymous")
  }

  /** The author's name as the home feed shows it (last user with the e-mail). */
  function FeedAuthorName(users: seq<User>, email: string): (name: string)
    ensures name != ""
    ensures !Registered(users, email) ==> name == "Anonymous"
    ensures Registered(users, email) ==>
              exists j :: 0 <= j < |users| && users[j].email == email && name == DisplayName(users[j])
                && forall k :: j < k < |users| ==> users[k].email != email
  {
    match FindLast(users, UserAs(email))
    case None => "Anonymous"
    case Some(j) => DisplayName(users[j])
  }

  /** The author's role and name as a single post shows them: `findOne`, so
      the FIRST user with the e-mail. */
  function DetailAuthor(users: seq<User>, email: string): (r: (Role, string))
    ensures r.1 != ""
    ensures !Registered(users, email) ==> r == (Member, "Anonymous")
    ensures Registered(users, email) ==>
              exists j :: 0 <= j < |users| && users[j].email == email && r == (users[j].role, DisplayName(users[j]))
                && forall k :: 0 <= k < j ==> users[k].email != email
  {
    match FindFirst(users, UserAs(email))
    case None => (Member, "Anonymous")
    case Some(j) => (users[j].role, DisplayName(users[j]))
  }

  /** A post of `GET /forum-posts`: the document, the author's role and the vote counts. */
  datatype ListedPost = ListedPost(post: Post, role: Role, upvoteCount: nat, downvoteCount: nat)

  /** A post of `GET /home-forum-posts`: a projection without the vote sets. */
  datatype FeedPost = FeedPost(
    id: Id,
    title: string,
    content: string,
    createdAt: Time,
    authorEmail: string,
    authorName: string,
    role: Role,
    upvoteCount: nat,
    downvoteCount: nat)

  /** The body of `GET /forum-post/:id`. */
  datatype PostDetail = PostDetail(post: Post, role: Role, authorName: string, upvoteCount: nat, downvoteCount: nat)

  /** `GET /forum-posts?page=`: no reply for a negative page; otherwise 200
      with six posts of the newest-first listing, each with its author's role
      and its vote counts, and `totalPages` over all posts. */
  function ListPosts(s: Store, parsed: Option<int>): (r: Response<PageView<ListedPost>>)
    ensures r.Unhandled? <==> PageNumber(parsed) < 1
    ensures r.Reply? || r.Unhandled?
    ensures r.Reply? ==>
              var ordered := NewestFirst(s.posts, PostCreatedAt);
              var skip := (PageNumber(parsed) - 1) * PageSize;
              && r.code == OK
              && r.body.currentPage == PageNumber(parsed)
              && r.body.totalPages == TotalPages(|s.posts|)
              && |r.body.items| <= PageSize
              && (skip < |s.posts| ==> |r.body.items| == Min(PageSize, |s.posts| - skip))
              && forall k :: 0 <= k < |r.body.items| ==>
                   && skip + k < |ordered|
                   && r.body.items[k].post == ordered[skip + k]
                   && r.body.items[k].role == ListedRole(s.users, ordered[skip + k].authorEmail)
                   && r.body.items[k].upvoteCount == |ordered[skip + k].upvotes|
                   && r.body.items[k].downvoteCount == |ordered[skip + k].downvotes|
  {
    match Paginate(NewestFirst(s.posts, PostCreatedAt), parsed)
    case None => Unhandled
    case Some(view) =>
      var enrich := (p: Post) => ListedPost(p, ListedRole(s.users, p.authorEmail), |p.upvotes|, |p.downvotes|);
      Reply(OK, PageView(Map(view.items, enrich), view.totalPages, view.currentPage))
  }

  function ToFeedPost(users: seq<User>, p: Post): FeedPost
  {
    FeedPost(p.id, p.title, p.content, p.createdAt, p.authorEmail, FeedAuthorName(users, p.authorEmail),
             ListedRole(users, p.authorEmail), |p.upvotes|, |p.downvotes|)
  }

  /** `GET /home-forum-posts`: the six newest posts, each with its author's
      name and role and its vote counts. */
  function HomeFeed(s: Store): (r: Response<seq<FeedPost>>)
    ensures r.Reply? && r.code == OK
    ensures |r.body| == Min(PageSize, |s.posts|)
    ensures forall k :: 0 <= k < |r.body| ==>
              var p := NewestFirst(s.posts, PostCreatedAt)[k];
              && r.body[k].id == p.id
              && r.body[k].title == p.title
              && r.body[k].content == p.content
              && r.body[k].createdAt == p.createdAt
              && r.body[k].authorEmail == p.authorEmail
              && r.body[k].authorName == FeedAuthorName(s.users, p.authorEmail)
              && r.body[k].role == ListedRole(s.users, p.authorEmail)
              && r.body[k].upvoteCount == |p.upvotes|
              && r.body[k].downvoteCount == |p.downvotes|
  {
    var newest := Take(NewestFirst(s.posts, PostCreatedAt), PageSize);
    assert forall k :: 0 <= k < |newest| ==> newest[k] == NewestFirst(s.posts, PostCreatedAt)[k];
    Reply(OK, Map(newest, p => ToFeedPost(s.users, p)))
  }

  /** The home feed's posts are newest first. */
  lemma FeedNewestFirst(s: Store)
    ensures var feed := HomeFeed(s).body;
      forall i, j :: 0 <= i < j < |feed| ==> feed[i].createdAt >= feed[j].createdAt
  {
    var ordered := NewestFirst(s.posts, PostCreatedAt);
    var feed := HomeFeed(s).body;
    forall i, j | 0 <= i < j < |feed|
      ensures feed[i].createdAt >= feed[j].createdAt
    {
      assert PostCreatedAt(ordered[i]) >= PostCreatedAt(ordered[j]);
    }
  }

  /** `GET /forum-post/:id`: 500 for an id `ObjectId` cannot parse, 404 when no
      post has it, otherwise the post with its author's role and name (first
      user with the e-mail) and its vote counts. */
  function GetPost(s: Store, id: IdParam): (r: Response<PostDetail>)
    ensures id.Malformed? ==> r == Error(SERVER_ERROR, "Internal Server Error")
    ensures id.Valid? && Count(s.posts, PostWithId(id.id)) == 0 ==> r == Error(NOT_FOUND, "Post not found")
    ensures r.Reply? <==> id.Valid? && Count(s.posts, PostWithId(id.id)) > 0
    ensures r.Reply? ==>
              && r.code == OK
              && r.body.post in s.posts && r.body.post.id == id.id
              && r.body.upvoteCount == |r.body.post.upvotes|
              && r.body.downvoteCount == |r.body.post.downvotes|
              && (r.body.role, r.body.authorName) == DetailAuthor(s.users, r.body.post.authorEmail)
  {
    match id
    case Malformed => Error(SERVER_ERROR, "Internal Server Error")
    case Valid(pid) =>
      match FindFirst(s.posts, PostWithId(pid))
      case None => Error(NOT_FOUND, "Post not found")
      case Some(i) =>
        var p := s.posts[i];
        var author := DetailAuthor(s.users, p.authorEmail);
        Reply(OK, PostDetail(p, author.0, author.1, |p.upvotes|, |p.downvotes|))
  }

  /** The body of `POST /forum-vote`; `postId` is None when missing or empty. */
  datatype VoteRequest = VoteRequest(postId: Option<IdParam>, email: string, kind: string)

  predicate ValidVote(req: VoteRequest)
  {
    req.postId.Some? && req.email != "" && (req.kind == "upvote" || req.kind == "downvote")
  }

  /** `after` is `before` with `email` voting `upvote` (or `downvote`): the
      e-mail is in the chosen set and not in the other, every other voter is
      where it was, and nothing else about the post changed. */
  predicate VotedAs(before: Post, after: Post, email: string, up: bool)
  {
    && after.(upvotes := before.upvotes, downvotes := before.downvotes) == before
    && (up ==> email in after.upvotes && email !in after.downvotes)
    && (!up ==> email in after.downvotes && email !in after.upvotes)
    && (forall x :: x in after.upvotes && x != email ==> x in before.upvotes)
    && (forall x :: x in before.upvotes && x != email ==> x in after.upvotes)
    && (forall x :: x in after.downvotes && x != email ==> x in before.downvotes)
    && (forall x :: x in before.downvotes && x != email ==> x in after.downvotes)
  }

  /** The `$addToSet` / `$pull` update of one vote. */
  function ApplyVote(p: Post, email: string, up: bool): (q: Post)
    ensures VotedAs(p, q, email, up)
  {
    if up then p.(upvotes := p.upvotes + {email}, downvotes := p.downvotes - {email})
    else p.(downvotes := p.downvotes + {email}, upvotes := p.upvotes - {email})
  }

  /** `POST /forum-vote`: 400 for a missing post id or e-mail or an unknown
      vote type; no reply for a post id `ObjectId` cannot parse; 404 when no
      post has the id; otherwise the first post with the id records the vote
      and every other post is untouched. */
  function Vote(s: Store, req: VoteRequest): (r: Step<string>)
    ensures !ValidVote(req) ==> r == Step(s, Error(BAD_REQUEST, "Invalid request"))
    ensures ValidVote(req) && req.postId.value.Malformed? ==> r == Step(s, Unhandled)
    ensures ValidVote(req) && req.postId.value.Valid? && Count(s.posts, PostWithId(req.postId.value.id)) == 0 ==>
              r == Step(s, Error(NOT_FOUND, "Post not found"))
    ensures r.response.Reply? <==>
              ValidVote(req) && req.postId.value.Valid? && Count(s.posts, PostWithId(req.postId.value.id)) > 0
    ensures r.response.Reply? ==>
              var i := FindFirst(s.posts, PostWithId(req.postId.value.id)).value;
              && r.response == Reply(OK, "Vote recorded")
              && r.store == s.(posts := r.store.posts)
              && |r.store.posts| == |s.posts|
              && VotedAs(s.posts[i], r.store.posts[i], req.email, req.kind == "upvote")
              && forall k :: 0 <= k < |s.posts| && k != i ==> r.store.posts[k] == s.posts[k]
  {
    if !ValidVote(req) then Step(s, Error(BAD_REQUEST, "Invalid request"))
    else match req.postId.value
      case Malformed => Step(s, Unhandled)
      case Valid(pid) =>
        match FindFirst(s.posts, PostWithId(pid))
        case None => Step(s, Error(NOT_FOUND, "Post not found"))
        case Some(i) =>
          var voted := ApplyVote(s.posts[i], req.email, req.kind == "upvote");
          Step(s.(posts := s.posts[i := voted]), Reply(OK, "Vote recorded"))
  }

  /** Voting the same way twice changes nothing the second time: the vote
      sets are sets, so the e-mail is counted once. */
  lemma VoteIdempotent(s: Store, req: VoteRequest)
    requires Vote(s, req).response.Reply?
    ensures var s1 := Vote(s, req).store;
      Vote(s1, req) == Step(s1, Reply(OK, "Vote recorded"))
  {
    var pid := req.postId.value.id;
    var s1 := Vote(s, req).store;
    var i := FindFirst(s.posts, PostWithId(pid)).value;
    SameMatchesSameFirst(s.posts, s1.posts, PostWithId(pid));
    var p := s1.posts[i];
    assert ApplyVote(p, req.email, req.kind == "upvote") == p;
  }

  /** No e-mail is ever both an upvoter and a downvoter of a post: a vote
      keeps every post's two sets disjoint. */
  lemma VoteKeepsVotersExclusive(s: Store, req: VoteRequest)
    requires forall k :: 0 <= k < |s.posts| ==> s.posts[k].upvotes !! s.posts[k].downvotes
    ensures var s1 := Vote(s, req).store;
      forall k :: 0 <= k < |s1.posts| ==> s1.posts[k].upvotes !! s1.posts[k].downvotes
  {
  }

  /** A downvote followed by an upvote from the same e-mail leaves it an
      upvoter only. */
  lemma DownvoteThenUpvote(s: Store, pid: Id, email: string)
    requires email != ""
    requires Count(s.posts, PostWithId(pid)) > 0
    ensures var down := Vote(s, VoteRequest(Some(Valid(pid)), email, "downvote")).store;
      var up := Vote(down, VoteRequest(Some(Valid(pid)), email, "upvote")).store;
      var i := FindFirst(s.posts, PostWithId(pid)).value;
      email in up.posts[i].upvotes && email !in up.posts[i].downvotes
  {
    var down := Vote(s, VoteRequest(Some(Valid(pid)), email, "downvote")).store;
    SameMatchesSameFirst(s.posts, down.posts, PostWithId(pid));
  }

  /** An upvote raises the upvote count by one for a new upvoter and lowers
      the downvote count by one for a former downvoter. */
  lemma UpvoteCounts(s: Store, pid: Id, email: string)
    requires email != ""
    requires Count(s.posts, PostWithId(pid)) > 0
    ensures var i := FindFirst(s.posts, PostWithId(pid)).value;
      var p := s.posts[i];
      var q := Vote(s, VoteRequest(Some(Valid(pid)), email, "upvote")).store.posts[i];
      && |q.upvotes| == |p.upvotes| + (if email in p.upvotes then 0 else 1)
      && |q.downvotes| == |p.downvotes| - (if email in p.downvotes then 1 else 0)
  {
    var i := FindFirst(s.posts, PostWithId(pid)).value;
    var p := s.posts[i];
    var q := Vote(s, VoteRequest(Some(Valid(pid)), email, "upvote")).store.posts[i];
    assert q.upvotes == p.upvotes + {email};
    assert q.downvotes == p.downvotes - {email};
    if email in p.upvotes {
      assert q.upvotes == p.upvotes;
    }
    if email in p.downvotes {
      assert p.downvotes == q.downvotes + {email};
    } else {
      assert q.downvotes == p.downvotes;
    }
  }

  /** A post created with a clock reading no earlier than every stored post
      keeps a chronological collection chronological, and heads the home feed. */
  lemma NewPostHeadsFeed(s: Store, title: string, content: string, authorEmail: string,
                         upvotes: set<string>, downvotes: set<string>, now: Time)
    requires title != "" && content != "" && authorEmail != ""
    requires forall k :: 0 <= k < |s.posts| ==> s.posts[k].createdAt <= now
    ensures var s1 := CreatePost(s, title, content, authorEmail, upvotes, downvotes, now).store;
      && (Ascending(s.posts, PostCreatedAt) ==> Ascending(s1.posts, PostCreatedAt))
      && |HomeFeed(s1).body| > 0
      && HomeFeed(s1).body[0].id == s.nextId
  {
    var s1 := CreatePost(s, title, content, authorEmail, upvotes, downvotes, now).store;
    var post := s1.posts[|s.posts|];
    assert s1.posts == s.posts + [post];
    LatestHeadsNewestFirst(s.posts, post, PostCreatedAt);
  }

  /** With one user per e-mail, the listing (last match) and the single-post
      view (first match) resolve an author to the same role and name. */
  lemma AuthorLookupsAgree(users: seq<User>, email: string)
    requires DistinctLower(users, UserEmail)
    ensures DetailAuthor(users, email) == (ListedRole(users, email), FeedAuthorName(users, email))
  {
    var first := FindFirst(users, UserAs(email));
    var last := FindLast(users, UserAs(email));
    if first.Some? {
      assert last.Some?;
      assert users[first.value].email == users[last.value].email;
    }
  }
}
