/** What the mutation resolvers promise, and what they fail to promise,
    stated over the store model. */
module MutationProperties {
  import opened Common
  import opened PostSchema
  import opened StoreModel
  import UpdateOps

  // ---------------------------------------------------------------------
  // The store invariant
  // ---------------------------------------------------------------------

  /** Storing a new post under the next id, and linking it to an existing
      user, keeps the invariant. */
  lemma InsertFreshPostKeepsInvariant(db: Db, post: Post, users: map<Id, User>)
    requires Invariant(db)
    requires post.id == db.nextId && post.comments == []
    requires users.Keys == db.users.Keys
    requires forall k :: k in users ==> users[k].id == k
    requires forall k, x :: k in users && x in users[k].posts ==> x <= db.nextId
    ensures Invariant(Db(db.posts[post.id := post], users, db.nextId + 1))
  {
    var d := Db(db.posts[post.id := post], users, db.nextId + 1);
    forall k, c | k in d.posts && c in d.posts[k].comments ensures c.id < d.nextId {
      assert k != post.id;
    }
  }

  lemma AddPostWithKeepsInvariant(db: Db, caller: Option<Identity>, postTitle: Option<string>, postDesc: string, now: int)
    requires Invariant(db)
    ensures Invariant(AddPostWith(db, caller, postTitle, postDesc, now).db)
  {
    if caller.Some? {
      var post := NewPost(db.nextId, postTitle, Some(postDesc), caller.value.username, now);
      if Violations(post) == {} {
        var me := caller.value.id;
        var users := if me in db.users then db.users[me := LinkPost(db.users[me], post.id)] else db.users;
        assert AddPostWith(db, caller, postTitle, postDesc, now).db == Db(db.posts[post.id := post], users, db.nextId + 1);
        InsertFreshPostKeepsInvariant(db, post, users);
      }
    }
  }

  lemma AddUserKeepsInvariant(db: Db, username: string, email: string, password: string)
    requires Invariant(db)
    ensures Invariant(AddUser(db, username, email, password).db)
  {
  }

  lemma AddCommentKeepsInvariant(db: Db, caller: Option<Identity>, postId: Id, commentText: string, now: int)
    requires Invariant(db)
    ensures Invariant(AddComment(db, caller, postId, commentText, now).db)
  {
  }

  lemma RemovePostKeepsInvariant(db: Db, caller: Option<Identity>, postId: Id)
    requires Invariant(db)
    ensures Invariant(RemovePost(db, caller, postId).db)
  {
    if caller.Some? && caller.value.id in db.users {
      var d := RemovePost(db, caller, postId).db;
      forall k, x | k in d.users && x in d.users[k].posts ensures x < d.nextId {
        if k == caller.value.id {
          assert x in db.users[k].posts;
        }
      }
    }
  }

  lemma RemoveCommentKeepsInvariant(db: Db, caller: Option<Identity>, postId: Id, commentId: Id)
    requires Invariant(db)
    ensures Invariant(RemoveComment(db, caller, postId, commentId).db)
  {
    if caller.Some? && postId in db.posts {
      var d := RemoveComment(db, caller, postId, commentId).db;
      forall k, c | k in d.posts && c in d.posts[k].comments ensures c.id < d.nextId {
        if k == postId {
          assert c in db.posts[postId].comments;
        }
      }
    }
  }

  lemma UpdateCommentKeepsInvariant(db: Db, caller: Option<Identity>, postId: Id, commentId: Id, commentText: string)
    requires Invariant(db)
    ensures Invariant(UpdateComment(db, caller, postId, commentId, commentText).db)
  {
    if caller.Some? && CommentTextViolation(commentText).None? && postId in db.posts {
      var d := UpdateComment(db, caller, postId, commentId, commentText).db;
      var before := db.posts[postId].comments;
      forall k, c | k in d.posts && c in d.posts[k].comments ensures c.id < d.nextId {
        if k == postId {
          var i :| 0 <= i < |d.posts[k].comments| && d.posts[k].comments[i] == c;
          assert c.id == before[i].id;
          assert before[i] in before;
        }
      }
    }
  }

  lemma UpdateUserKeepsInvariant(db: Db, caller: Option<Identity>, userId: Id, username: string, email: string)
    requires Invariant(db)
    ensures Invariant(UpdateUser(db, caller, userId, username, email).db)
  {
  }

  lemma UpdatePasswordKeepsInvariant(db: Db, caller: Option<Identity>, userId: Id, password: string, email: string)
    requires Invariant(db)
    ensures Invariant(UpdatePassword(db, caller, userId, password, email).db)
  {
  }

  lemma LikePostKeepsInvariant(db: Db, caller: Option<Identity>, postId: Id)
    requires Invariant(db)
    ensures Invariant(LikePost(db, caller, postId).db)
  {
  }

  lemma EditPostKeepsInvariant(db: Db, caller: Option<Identity>, postId: Id, postDesc: string)
    requires Invariant(db)
    ensures Invariant(EditPost(db, caller, postId, postDesc).db)
  {
    if caller.Some? && postId in db.posts {
      var d := EditPost(db, caller, postId, postDesc).db;
      assert d.posts[postId].comments == db.posts[postId].comments;
    }
  }

  /** Every mutation keeps documents under their own ids and every id fresh. */
  lemma StepKeepsInvariant(db: Db, m: Mutation)
    requires Invariant(db)
    ensures Invariant(Apply(db, m).0)
  {
    match m
    case AddUserCall(username, email, password) => AddUserKeepsInvariant(db, username, email, password);
    case AddPostCall(caller, postDesc, now) => AddPostWithKeepsInvariant(db, caller, None, postDesc, now);
    case AddCommentCall(caller, postId, commentText, now) =>
      AddCommentKeepsInvariant(db, caller, postId, commentText, now);
    case RemovePostCall(caller, postId) => RemovePostKeepsInvariant(db, caller, postId);
    case RemoveCommentCall(caller, postId, commentId) => RemoveCommentKeepsInvariant(db, caller, postId, commentId);
    case UpdatePostCall(caller, postId) =>
    case UpdateCommentCall(caller, postId, commentId, commentText) =>
      UpdateCommentKeepsInvariant(db, caller, postId, commentId, commentText);
    case UpdateUserCall(caller, userId, username, email) =>
      UpdateUserKeepsInvariant(db, caller, userId, username, email);
    case UpdatePasswordCall(caller, userId, password, email) =>
      UpdatePasswordKeepsInvariant(db, caller, userId, password, email);
    case LikePostCall(caller, postId) => LikePostKeepsInvariant(db, caller, postId);
    case EditPostCall(caller, postId, postDesc) => EditPostKeepsInvariant(db, caller, postId, postDesc);
  }

  // ---------------------------------------------------------------------
  // Authentication
  // ---------------------------------------------------------------------

  /** A guarded mutation without a caller throws and changes nothing.
      `likePost`, `editPost` and `updatePassword` throw their own messages,
      the rest `AuthenticationError`. */
  lemma NoCallerNoChange(db: Db, m: Mutation)
    requires Guarded(m) && m.caller.None?
    ensures Apply(db, m) == (db, Some(NoCallerError(m)))
    ensures m.LikePostCall? ==> NoCallerError(m) == Failure("You need to be logged in to like posts!")
    ensures m.EditPostCall? ==> NoCallerError(m) == Failure("You need to be logged in to edit posts!")
    ensures m.UpdatePasswordCall? ==> NoCallerError(m) == Failure("Oh no something went wrong")
    ensures !(m.LikePostCall? || m.EditPostCall? || m.UpdatePasswordCall?) ==> NoCallerError(m) == AuthenticationError
  {
  }

  /** The three messages differ from one another. */
  lemma NoCallerMessagesDistinct()
    ensures LikeLoginMessage != EditLoginMessage
    ensures LikeLoginMessage != PasswordLoginMessage
    ensures EditLoginMessage != PasswordLoginMessage
  {
    assert LikeLoginMessage[29] == 'i' && EditLoginMessage[29] == 'd';
    assert LikeLoginMessage[0] != PasswordLoginMessage[0];
    assert EditLoginMessage[0] != PasswordLoginMessage[0];
  }

  // ---------------------------------------------------------------------
  // likePost
  // ---------------------------------------------------------------------

  /** The author cannot like their own post, and trying changes nothing. */
  lemma LikeOwnPostRefused(db: Db, me: Identity, postId: Id)
    requires postId in db.posts && db.posts[postId].postAuthor == me.username
    ensures LikePost(db, Some(me), postId) == Outcome(db, Err(Failure("You can't like your own post!")))
  {
  }

  /** Liking a post that does not exist throws and changes nothing. */
  lemma LikeMissingPostFails(db: Db, me: Identity, postId: Id)
    requires postId !in db.posts
    ensures LikePost(db, Some(me), postId) == Outcome(db, Err(NullDereference))
  {
  }

  /** Anyone else's like adds exactly one to that post's `likes` and changes
      nothing else. */
  lemma LikeAddsOne(db: Db, me: Identity, postId: Id)
    requires postId in db.posts && db.posts[postId].postAuthor != me.username
    ensures var o := LikePost(db, Some(me), postId);
      && o.result.Ok?
      && o.db.users == db.users && o.db.nextId == db.nextId
      && o.db.posts.Keys == db.posts.Keys
      && o.db.posts[postId].likes == db.posts[postId].likes + 1
      && o.db.posts[postId].(likes := db.posts[postId].likes) == db.posts[postId]
      && o.result.value == o.db.posts[postId]
      && (forall k :: k in db.posts && k != postId ==> o.db.posts[k] == db.posts[k])
  {
  }

  /** `likes` never goes down: only `likePost` changes it, by one, on the
      post it names; a post that every step keeps keeps its likes otherwise. */
  lemma LikesNeverDecrease(db: Db, m: Mutation, k: Id)
    requires k in db.posts && k in Apply(db, m).0.posts
    ensures var likes := Apply(db, m).0.posts[k].likes;
      if m.LikePostCall? && m.postId == k && Apply(db, m).1.None? then likes == db.posts[k].likes + 1
      else likes == db.posts[k].likes
  {
    match m
    case AddPostCall(caller, postDesc, now) =>
      if caller.Some? {
        UntitledPostRejected(db.nextId, Some(postDesc), caller.value.username, now);
      }
    case _ =>
  }

  // ---------------------------------------------------------------------
  // removePost
  // ---------------------------------------------------------------------

  /** The author removes the post: it is gone, its id is pulled from the
      author's `posts`, and the other documents are as they were. */
  lemma RemoveOwnPost(db: Db, me: Identity, postId: Id)
    requires postId in db.posts && db.posts[postId].postAuthor == me.username
    ensures var o := RemovePost(db, Some(me), postId);
      && o.result == Ok(db.posts[postId])
      && o.db.posts.Keys == db.posts.Keys - {postId}
      && (forall k :: k in o.db.posts ==> o.db.posts[k] == db.posts[k])
      && o.db.users.Keys == db.users.Keys
      && (me.id in db.users ==>
            && postId !in o.db.users[me.id].posts
            && (forall x :: x != postId ==> multiset(o.db.users[me.id].posts)[x] == multiset(db.users[me.id].posts)[x])
            && o.db.users[me.id].(posts := db.users[me.id].posts) == db.users[me.id])
      && (forall k :: k in db.users && k != me.id ==> o.db.users[k] == db.users[k])
  {
    if me.id in db.users {
      var before := db.users[me.id].posts;
      forall x | x != postId
        ensures multiset(UpdateOps.Pull(before, UpdateOps.Equals(postId)))[x] == multiset(before)[x]
      {
        UpdateOps.PullCount(before, UpdateOps.Equals(postId), x);
      }
    }
  }

  /** The store changes only when the caller is the author of an existing
      post; otherwise the call throws. */
  lemma RemovePostOnlyByAuthor(db: Db, caller: Option<Identity>, postId: Id)
    ensures var o := RemovePost(db, caller, postId);
      o.result.Ok? <==> caller.Some? && postId in db.posts && db.posts[postId].postAuthor == caller.value.username
    ensures var o := RemovePost(db, caller, postId);
      o.result.Err? ==> o.db == db
    ensures caller.Some? && !(postId in db.posts && db.posts[postId].postAuthor == caller.value.username) ==>
      RemovePost(db, caller, postId).result == Err(NullDereference)
  {
  }

  // ---------------------------------------------------------------------
  // removeComment
  // ---------------------------------------------------------------------

  /** `removeComment` removes exactly the caller's comments with the given id;
      every other comment stays, as often as before and in its order. The
      post is returned. */
  lemma RemoveCommentExact(db: Db, me: Identity, postId: Id, commentId: Id)
    requires postId in db.posts
    ensures var o := RemoveComment(db, Some(me), postId, commentId);
      && o.result.Ok? && o.result.value.Some?
      && o.db.posts.Keys == db.posts.Keys && o.db.users == db.users && o.db.nextId == db.nextId
      && o.result.value.value == o.db.posts[postId]
      && o.db.posts[postId].(comments := db.posts[postId].comments) == db.posts[postId]
      && (forall c :: c in o.db.posts[postId].comments <==>
            c in db.posts[postId].comments && !(c.id == commentId && c.commentAuthor == me.username))
      && (forall c: Comment :: !(c.id == commentId && c.commentAuthor == me.username) ==>
            multiset(o.db.posts[postId].comments)[c] == multiset(db.posts[postId].comments)[c])
      && UpdateOps.Subsequence(o.db.posts[postId].comments, db.posts[postId].comments)
      && (forall k :: k in db.posts && k != postId ==> o.db.posts[k] == db.posts[k])
  {
    var cs := db.posts[postId].comments;
    var matches := CommentMatches(commentId, me.username);
    UpdateOps.PullSubsequence(cs, matches);
    forall c: Comment | !(c.id == commentId && c.commentAuthor == me.username)
      ensures multiset(UpdateOps.Pull(cs, matches))[c] == multiset(cs)[c]
    {
      UpdateOps.PullCount(cs, matches, c);
    }
  }

  /** When the caller wrote no comment with that id, the list and the store
      are unchanged, and the post is still returned. */
  lemma RemoveOthersCommentKeepsList(db: Db, me: Identity, postId: Id, commentId: Id)
    requires postId in db.posts
    requires forall c :: c in db.posts[postId].comments && c.id == commentId ==> c.commentAuthor != me.username
    ensures RemoveComment(db, Some(me), postId, commentId) == Outcome(db, Ok(Some(db.posts[postId])))
  {
    var cs := db.posts[postId].comments;
    UpdateOps.PullNothing(cs, CommentMatches(commentId, me.username));
    assert db.posts[postId := db.posts[postId]] == db.posts;
  }

  // ---------------------------------------------------------------------
  // addComment
  // ---------------------------------------------------------------------

  /** A valid comment on an existing post is appended, with the given text,
      the caller as author, a fresh id and the current time; the read-back
      post holds it. */
  lemma AddCommentAppends(db: Db, me: Identity, postId: Id, commentText: string, now: int)
    requires Invariant(db)
    requires postId in db.posts && ValidCommentText(commentText) && me.username != ""
    ensures var o := AddComment(db, Some(me), postId, commentText, now);
      var c := Comment(db.nextId, commentText, me.username, now);
      && o.result == Ok(Some(o.db.posts[postId]))
      && o.db.posts.Keys == db.posts.Keys && o.db.users == db.users
      && o.db.posts[postId].comments == db.posts[postId].comments + [c]
      && o.db.posts[postId].(comments := db.posts[postId].comments) == db.posts[postId]
      && (forall k :: k in db.posts && k != postId ==> o.db.posts[k] == db.posts[k])
  {
    var c := Comment(db.nextId, commentText, me.username, now);
    assert c !in db.posts[postId].comments;
    UpdateOps.AddToSetAbsent(db.posts[postId].comments, c);
  }

  /** A comment that breaks the comment rules (text of 1 to 250 characters, a
      non-empty author) is refused before anything is looked up. */
  lemma AddCommentValidates(db: Db, me: Identity, postId: Id, commentText: string, now: int)
    requires !ValidCommentText(commentText) || me.username == ""
    ensures var o := AddComment(db, Some(me), postId, commentText, now);
      o.db == db && o.result.Err? && o.result.error.ValidationError?
  {
    CommentViolationsEmpty(NewComment(db.nextId, commentText, me.username, now));
  }

  /** A valid comment on an unknown post yields `null` and changes nothing. */
  lemma AddCommentUnknownPost(db: Db, me: Identity, postId: Id, commentText: string, now: int)
    requires postId !in db.posts && ValidCommentText(commentText) && me.username != ""
    ensures AddComment(db, Some(me), postId, commentText, now) == Outcome(db, Ok(None))
  {
  }

  // ---------------------------------------------------------------------
  // addPost
  // ---------------------------------------------------------------------

  /** `addPost` never succeeds: the post it builds has no title, so creation
      fails validation on `postTitle` and the store is unchanged. */
  lemma AddPostAlwaysRejected(db: Db, caller: Option<Identity>, postDesc: string, now: int)
    ensures var o := AddPost(db, caller, postDesc, now);
      && o.db == db && o.result.Err?
      && (caller.Some? ==> o.result.error.ValidationError? && Required(PostTitle) in o.result.error.violations)
  {
    if caller.Some? {
      var post := NewPost(db.nextId, None, Some(postDesc), caller.value.username, now);
      UntitledPostRejected(db.nextId, Some(postDesc), caller.value.username, now);
      assert Violations(post) != {};
      assert AddPost(db, caller, postDesc, now) == Outcome(db, Err(ValidationError(Violations(post))));
    }
  }

  /** Were a valid post built, it would be stored under a fresh id with the
      caller as author, no likes and no comments, and the caller's `posts`
      would end with its id, holding it exactly once. */
  lemma AddValidPostLinksOnce(db: Db, me: Identity, postTitle: Option<string>, postDesc: string, now: int)
    requires Invariant(db) && me.id in db.users
    requires ValidPost(NewPost(db.nextId, postTitle, Some(postDesc), me.username, now))
    ensures var o := AddPostWith(db, Some(me), postTitle, postDesc, now);
      && o.result.Ok?
      && var p := o.result.value;
      && p.id == db.nextId && p.id !in db.posts
      && o.db.posts == db.posts[p.id := p]
      && p.postAuthor == Trim(me.username) && p.likes == 0 && p.comments == [] && p.createdAt == now
      && o.db.users[me.id].posts == db.users[me.id].posts + [p.id]
      && multiset(o.db.users[me.id].posts)[p.id] == 1
  {
    ViolationsEmptyIffValid(NewPost(db.nextId, postTitle, Some(postDesc), me.username, now));
    assert db.nextId !in db.users[me.id].posts;
    UpdateOps.AddToSetAbsent(db.users[me.id].posts, db.nextId);
  }

  // ---------------------------------------------------------------------
  // Single-field updates
  // ---------------------------------------------------------------------

  /** `updatePost` never changes the store; it returns the post exactly when
      the caller wrote it, and `null` otherwise. */
  lemma UpdatePostReadOnly(db: Db, me: Identity, postId: Id)
    ensures var o := UpdatePost(db, Some(me), postId);
      && o.db == db && o.result.Ok?
      && (o.result.value.Some? <==> postId in db.posts && db.posts[postId].postAuthor == me.username)
      && (o.result.value.Some? ==> o.result.value.value == db.posts[postId])
  {
  }

  /** `editPost` lets any caller overwrite any post's description (stored
      trimmed), with no ownership and no length check. */
  lemma EditPostAnyCaller(db: Db, me: Identity, postId: Id, postDesc: string)
    requires postId in db.posts
    ensures var o := EditPost(db, Some(me), postId, postDesc);
      && o.result == Ok(Some(o.db.posts[postId]))
      && o.db.posts[postId].postDesc == Some(Trim(postDesc))
      && o.db.posts[postId].(postDesc := db.posts[postId].postDesc) == db.posts[postId]
      && o.db.posts.Keys == db.posts.Keys && o.db.users == db.users
      && (forall k :: k in db.posts && k != postId ==> o.db.posts[k] == db.posts[k])
  {
  }

  /** A witness of that gap: a user who did not write a valid post edits it
      into one the schema would reject. */
  lemma EditPostBreaksValidity()
    ensures var p := Post(0, Some("Gardening"), Some("A new flower bed"), "alice", 0, [], None, 0);
      var db := Db(map[0 := p], map[], 1);
      var o := EditPost(db, Some(Identity(1, "bob", "bob@example.com")), 0, "short");
      && ValidPost(p) && o.result.Ok? && !ValidPost(o.db.posts[0])
  {
    var p := Post(0, Some("Gardening"), Some("A new flower bed"), "alice", 0, [], None, 0);
    var db := Db(map[0 := p], map[], 1);
    var bob := Identity(1, "bob", "bob@example.com");
    assert TrimStart("short") == "short";
    assert TrimEnd("short") == "short";
    assert EditPost(db, Some(bob), 0, "short").db.posts[0].postDesc == Some("short");
  }

  /** `updateComment` changes only the text, and only of the comments with the
      given id, whoever wrote them; ids, authors, dates and order stay. */
  lemma UpdateCommentOnlyText(db: Db, me: Identity, postId: Id, commentId: Id, commentText: string)
    requires postId in db.posts && ValidCommentText(commentText)
    ensures var o := UpdateComment(db, Some(me), postId, commentId, commentText);
      var before := db.posts[postId].comments;
      var after := o.db.posts[postId].comments;
      && o.result == Ok(Some(o.db.posts[postId]))
      && o.db.posts.Keys == db.posts.Keys && o.db.users == db.users
      && o.db.posts[postId].(comments := before) == db.posts[postId]
      && |after| == |before|
      && (forall i :: 0 <= i < |before| ==>
            && after[i].id == before[i].id
            && after[i].commentAuthor == before[i].commentAuthor
            && after[i].createdAt == before[i].createdAt
            && after[i].commentText == if before[i].id == commentId then commentText else before[i].commentText)
      && (forall k :: k in db.posts && k != postId ==> o.db.posts[k] == db.posts[k])
  {
  }

  /** A text outside 1 to 250 characters is refused before anything is
      looked up. */
  lemma UpdateCommentValidates(db: Db, me: Identity, postId: Id, commentId: Id, commentText: string)
    requires !ValidCommentText(commentText)
    ensures var o := UpdateComment(db, Some(me), postId, commentId, commentText);
      o.db == db && o.result.Err? && o.result.error.ValidationError?
  {
  }

  /** `updatePassword` changes only the password, and only of a user whose id
      and email both match. */
  lemma UpdatePasswordNeedsEmail(db: Db, me: Identity, userId: Id, password: string, email: string)
    ensures var o := UpdatePassword(db, Some(me), userId, password, email);
      && o.result.Ok?
      && (o.db != db ==> userId in db.users && db.users[userId].email == email)
      && (userId in db.users && db.users[userId].email == email ==>
            && o.db.users[userId] == db.users[userId].(password := password)
            && o.result.value == Some(o.db.users[userId]))
      && o.db.posts == db.posts && o.db.users.Keys == db.users.Keys
      && (forall k :: k in db.users && k != userId ==> o.db.users[k] == db.users[k])
  {
  }

  /** `updateUser` lets any caller overwrite any user's username and email. */
  lemma UpdateUserAnyCaller(db: Db, me: Identity, userId: Id, username: string, email: string)
    requires userId in db.users
    ensures var o := UpdateUser(db, Some(me), userId, username, email);
      && o.db.users[userId] == db.users[userId].(username := username, email := email)
      && o.result == Ok(Some(o.db.users[userId]))
      && o.db.posts == db.posts && o.db.users.Keys == db.users.Keys
      && (forall k :: k in db.users && k != userId ==> o.db.users[k] == db.users[k])
  {
  }

  // ---------------------------------------------------------------------
  // Schema validity across mutations
  // ---------------------------------------------------------------------

  ghost predicate AllPostsValid(db: Db)
  {
    forall k :: k in db.posts ==> ValidPost(db.posts[k])
  }

  lemma AddCommentKeepsValidity(db: Db, caller: Option<Identity>, postId: Id, commentText: string, now: int)
    requires AllPostsValid(db)
    ensures AllPostsValid(AddComment(db, caller, postId, commentText, now).db)
  {
    if caller.Some? {
      var c := NewComment(db.nextId, commentText, caller.value.username, now);
      CommentViolationsEmpty(c);
      if CommentViolations(c) == {} && postId in db.posts {
        var d := AddComment(db, caller, postId, commentText, now).db;
        assert forall x :: x in d.posts[postId].comments ==> x in db.posts[postId].comments || x == c;
      }
    }
  }

  lemma RemoveCommentKeepsValidity(db: Db, caller: Option<Identity>, postId: Id, commentId: Id)
    requires AllPostsValid(db)
    ensures AllPostsValid(RemoveComment(db, caller, postId, commentId).db)
  {
    if caller.Some? && postId in db.posts {
      var d := RemoveComment(db, caller, postId, commentId).db;
      assert forall c :: c in d.posts[postId].comments ==> c in db.posts[postId].comments;
    }
  }

  lemma UpdateCommentKeepsValidity(db: Db, caller: Option<Identity>, postId: Id, commentId: Id, commentText: string)
    requires AllPostsValid(db)
    ensures AllPostsValid(UpdateComment(db, caller, postId, commentId, commentText).db)
  {
    if caller.Some? && CommentTextViolation(commentText).None? && postId in db.posts {
      var d := UpdateComment(db, caller, postId, commentId, commentText).db;
      var before := db.posts[postId].comments;
      var after := d.posts[postId].comments;
      forall c | c in after ensures ValidComment(c) {
        var i :| 0 <= i < |after| && after[i] == c;
        assert before[i] in before;
      }
    }
  }

  /** Every mutation but `editPost` keeps all stored posts valid: creation
      and comment updates run validators, the others only remove or count. */
  lemma ValidityKeptExceptEditPost(db: Db, m: Mutation)
    requires AllPostsValid(db)
    requires !m.EditPostCall?
    ensures AllPostsValid(Apply(db, m).0)
  {
    match m
    case AddPostCall(caller, postDesc, now) =>
      AddPostAlwaysRejected(db, caller, postDesc, now);
    case AddCommentCall(caller, postId, commentText, now) =>
      AddCommentKeepsValidity(db, caller, postId, commentText, now);
    case RemoveCommentCall(caller, postId, commentId) =>
      RemoveCommentKeepsValidity(db, caller, postId, commentId);
    case UpdateCommentCall(caller, postId, commentId, commentText) =>
      UpdateCommentKeepsValidity(db, caller, postId, commentId, commentText);
    case LikePostCall(caller, postId) =>
    case RemovePostCall(caller, postId) =>
    case AddUserCall(_, _, _) =>
    case UpdatePostCall(_, _) =>
    case UpdateUserCall(_, _, _, _) =>
    case UpdatePasswordCall(_, _, _, _) =>
  }
}
