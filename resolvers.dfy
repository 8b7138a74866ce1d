/** The GraphQL resolvers over a store object whose two collections they read
    and change in place. Every mutation is proved to do exactly what its
    counterpart in `StoreModel` says; the query resolvers only read. */
module Resolvers {
  import opened Common
  import opened PostSchema
  import opened StoreModel
  import PostOrder
  import UpdateOps
  import MutationProperties

  /** Whether the `posts` query keeps `p`. A username that is absent or empty
      (falsy) means no filter; otherwise the document store decides with
      `authorFilter` how the filter on `username` applies to a post. */
  predicate Selected(username: Option<string>, authorFilter: (string, Post) -> bool, p: Post)
  {
    username.None? || username.value == "" || authorFilter(username.value, p)
  }

  class Store {
    var posts: map<Id, Post>
    var users: map<Id, User>
    var nextId: nat

    function State(): Db
      reads this
    {
      Db(posts, users, nextId)
    }

    ghost predicate Valid()
      reads this
    {
      Invariant(State())
    }

    constructor ()
      ensures Valid() && posts == map[] && users == map[]
    {
      posts := map[];
      users := map[];
      nextId := 0;
    }

    // -------------------------------------------------------------------
    // Queries
    // -------------------------------------------------------------------

    /** `users`: every user document, once each. */
    method AllUsers() returns (r: seq<User>)
      requires Valid()
      ensures forall u :: u in r <==> u.id in users && users[u.id] == u
      ensures |r| == |users|
    {
      var remaining := users.Keys;
      r := [];
      while remaining != {}
        invariant remaining <= users.Keys
        invariant |r| + |remaining| == |users.Keys|
        invariant forall u :: u in r <==> u.id in users.Keys - remaining && users[u.id] == u
        decreases remaining
      {
        var k :| k in remaining;
        r := r + [users[k]];
        remaining := remaining - {k};
      }
    }

    /** `user(username)`: some user with that username, if there is one. */
    method UserByName(username: string) returns (r: Option<User>)
      requires Valid()
      ensures r.Some? <==> exists k :: k in users && users[k].username == username
      ensures r.Some? ==> r.value.id in users && users[r.value.id] == r.value && r.value.username == username
    {
      if exists k :: k in users && users[k].username == username {
        var k :| k in users && users[k].username == username;
        r := Some(users[k]);
      } else {
        r := None;
      }
    }

    /** `posts(username)`: the selected posts, each once, newest first. */
    method AllPosts(username: Option<string>, authorFilter: (string, Post) -> bool) returns (r: seq<Post>)
      requires Valid()
      ensures PostOrder.NewestFirst(r)
      ensures PostOrder.NoRepeats(r)
      ensures forall p :: p in r <==> p.id in posts && posts[p.id] == p && Selected(username, authorFilter, p)
    {
      var remaining := posts.Keys;
      r := [];
      while remaining != {}
        invariant remaining <= posts.Keys
        invariant PostOrder.NewestFirst(r) && PostOrder.NoRepeats(r)
        invariant forall p :: p in r <==>
          p.id in posts.Keys - remaining && posts[p.id] == p && Selected(username, authorFilter, p)
        decreases remaining
      {
        var k :| k in remaining;
        var p := posts[k];
        if Selected(username, authorFilter, p) {
          PostOrder.InsertKeepsNewestFirst(r, p);
          PostOrder.InsertKeepsNoRepeats(r, p);
          r := PostOrder.InsertNewestFirst(r, p);
        }
        remaining := remaining - {k};
      }
    }

    /** `post(postId)`: the post with that id, if any. */
    method PostById(postId: Id) returns (r: Option<Post>)
      requires Valid()
      ensures r.Some? <==> postId in posts
      ensures r.Some? ==> r.value == posts[postId] && r.value.id == postId
    {
      r := if postId in posts then Some(posts[postId]) else None;
    }

    /** `me`: the caller's own user document; no caller is an error. */
    method Me(caller: Option<Identity>) returns (r: Result<Option<User>>)
      requires Valid()
      ensures caller.None? <==> r == Err(AuthenticationError)
      ensures caller.Some? ==> r.Ok? && (r.value.Some? <==> caller.value.id in users)
      ensures caller.Some? && r.Ok? && r.value.Some? ==>
        r.value.value == users[caller.value.id] && r.value.value.id == caller.value.id
    {
      if caller.None? {
        return Err(AuthenticationError);
      }
      r := Ok(if caller.value.id in users then Some(users[caller.value.id]) else None);
    }

    /** `login`: some user with the email, whose stored password
        `isCorrectPassword` accepts; anything else is `AuthenticationError`.
        Issuing the token is not modelled. */
    method Login(email: string, password: string, isCorrectPassword: (string, string) -> bool) returns (r: Result<User>)
      requires Valid()
      ensures r.Err? ==> r.error == AuthenticationError
      ensures r.Ok? ==>
        && r.value.id in users && users[r.value.id] == r.value
        && r.value.email == email && isCorrectPassword(r.value.password, password)
      ensures (forall k :: k in users ==> users[k].email != email) ==> r.Err?
      ensures (exists k :: k in users && users[k].email == email) &&
              (forall k :: k in users && users[k].email == email ==> isCorrectPassword(users[k].password, password))
              ==> r.Ok?
    {
      if !exists k :: k in users && users[k].email == email {
        return Err(AuthenticationError);
      }
      var k :| k in users && users[k].email == email;
      var user := users[k];
      if !isCorrectPassword(user.password, password) {
        return Err(AuthenticationError);
      }
      r := Ok(user);
    }

    // -------------------------------------------------------------------
    // Mutations
    // -------------------------------------------------------------------

    method AddUser(username: string, email: string, password: string) returns (r: Result<User>)
      requires Valid()
      modifies this
      ensures Valid()
      ensures Outcome(State(), r) == StoreModel.AddUser(old(State()), username, email, password)
    {
      var u := User(nextId, username, email, password, []);
      users := users[u.id := u];
      nextId := nextId + 1;
      r := Ok(u);
      MutationProperties.AddUserKeepsInvariant(old(State()), username, email, password);
    }

    /** The `addPost` steps for a post built with the given title:
        `Post.create`, then `$addToSet` of its id on the caller's `posts`. */
    method AddPostWith(caller: Option<Identity>, postTitle: Option<string>, postDesc: string, now: int) returns (r: Result<Post>)
      requires Valid()
      modifies this
      ensures Valid()
      ensures Outcome(State(), r) == StoreModel.AddPostWith(old(State()), caller, postTitle, postDesc, now)
    {
      if caller.None? {
        return Err(AuthenticationError);
      }
      var me := caller.value;
      var post := NewPost(nextId, postTitle, Some(postDesc), me.username, now);
      var violations := Violations(post);
      if violations != {} {
        return Err(ValidationError(violations));
      }
      posts := posts[post.id := post];
      nextId := nextId + 1;
      if me.id in users {
        users := users[me.id := LinkPost(users[me.id], post.id)];
      }
      r := Ok(post);
      MutationProperties.AddPostWithKeepsInvariant(old(State()), caller, postTitle, postDesc, now);
    }

    /** `addPost`: the post it creates carries no title. */
    method AddPost(caller: Option<Identity>, postDesc: string, now: int) returns (r: Result<Post>)
      requires Valid()
      modifies this
      ensures Valid()
      ensures Outcome(State(), r) == StoreModel.AddPost(old(State()), caller, postDesc, now)
    {
      r := AddPostWith(caller, None, postDesc, now);
    }

    method AddComment(caller: Option<Identity>, postId: Id, commentText: string, now: int) returns (r: Result<Option<Post>>)
      requires Valid()
      modifies this
      ensures Valid()
      ensures Outcome(State(), r) == StoreModel.AddComment(old(State()), caller, postId, commentText, now)
    {
      if caller.None? {
        return Err(AuthenticationError);
      }
      var comment := NewComment(nextId, commentText, caller.value.username, now);
      var violations := CommentViolations(comment);
      if violations != {} {
        return Err(ValidationError(violations));
      }
      if postId !in posts {
        return Ok(None);
      }
      var post := posts[postId].(comments := UpdateOps.AddToSet(posts[postId].comments, comment));
      posts := posts[postId := post];
      nextId := nextId + 1;
      r := Ok(Some(post));
      MutationProperties.AddCommentKeepsInvariant(old(State()), caller, postId, commentText, now);
    }

    method RemovePost(caller: Option<Identity>, postId: Id) returns (r: Result<Post>)
      requires Valid()
      modifies this
      ensures Valid()
      ensures Outcome(State(), r) == StoreModel.RemovePost(old(State()), caller, postId)
    {
      if caller.None? {
        return Err(AuthenticationError);
      }
      var me := caller.value;
      var deleted: Option<Post> := None;
      if postId in posts && posts[postId].postAuthor == me.username {
        deleted := Some(posts[postId]);
        posts := posts - {postId};
      }
      if deleted.None? {
        // `deletedPost._id` of a null result
        return Err(NullDereference);
      }
      if me.id in users {
        users := users[me.id := UnlinkPost(users[me.id], deleted.value.id)];
      }
      r := Ok(deleted.value);
      MutationProperties.RemovePostKeepsInvariant(old(State()), caller, postId);
    }

    method RemoveComment(caller: Option<Identity>, postId: Id, commentId: Id) returns (r: Result<Option<Post>>)
      requires Valid()
      modifies this
      ensures Valid()
      ensures Outcome(State(), r) == StoreModel.RemoveComment(old(State()), caller, postId, commentId)
    {
      if caller.None? {
        return Err(AuthenticationError);
      }
      if postId !in posts {
        return Ok(None);
      }
      var p := posts[postId];
      var post := p.(comments := UpdateOps.Pull(p.comments, CommentMatches(commentId, caller.value.username)));
      posts := posts[postId := post];
      r := Ok(Some(post));
      MutationProperties.RemoveCommentKeepsInvariant(old(State()), caller, postId, commentId);
    }

    method UpdatePost(caller: Option<Identity>, postId: Id) returns (r: Result<Option<Post>>)
      requires Valid()
      ensures Outcome(State(), r) == StoreModel.UpdatePost(State(), caller, postId)
    {
      if caller.None? {
        return Err(AuthenticationError);
      }
      if postId in posts && posts[postId].postAuthor == caller.value.username {
        r := Ok(Some(posts[postId]));
      } else {
        r := Ok(None);
      }
    }

    method UpdateComment(caller: Option<Identity>, postId: Id, commentId: Id, commentText: string) returns (r: Result<Option<Post>>)
      requires Valid()
      modifies this
      ensures Valid()
      ensures Outcome(State(), r) == StoreModel.UpdateComment(old(State()), caller, postId, commentId, commentText)
    {
      if caller.None? {
        return Err(AuthenticationError);
      }
      var violation := CommentTextViolation(commentText);
      if violation.Some? {
        return Err(ValidationError({violation.value}));
      }
      if postId !in posts {
        return Ok(None);
      }
      var p := posts[postId];
      var post := p.(comments := UpdateOps.SetWhere(p.comments, HasId(commentId), SetText(commentText)));
      posts := posts[postId := post];
      r := Ok(Some(post));
      MutationProperties.UpdateCommentKeepsInvariant(old(State()), caller, postId, commentId, commentText);
    }

    method UpdateUser(caller: Option<Identity>, userId: Id, username: string, email: string) returns (r: Result<Option<User>>)
      requires Valid()
      modifies this
      ensures Valid()
      ensures Outcome(State(), r) == StoreModel.UpdateUser(old(State()), caller, userId, username, email)
    {
      if caller.None? {
        return Err(AuthenticationError);
      }
      if userId !in users {
        return Ok(None);
      }
      var u := users[userId].(username := username, email := email);
      users := users[userId := u];
      r := Ok(Some(u));
      MutationProperties.UpdateUserKeepsInvariant(old(State()), caller, userId, username, email);
    }

    method UpdatePassword(caller: Option<Identity>, userId: Id, password: string, email: string) returns (r: Result<Option<User>>)
      requires Valid()
      modifies this
      ensures Valid()
      ensures Outcome(State(), r) == StoreModel.UpdatePassword(old(State()), caller, userId, password, email)
    {
      if caller.None? {
        return Err(Failure(PasswordLoginMessage));
      }
      if userId !in users || users[userId].email != email {
        return Ok(None);
      }
      var u := users[userId].(password := password);
      users := users[userId := u];
      r := Ok(Some(u));
      MutationProperties.UpdatePasswordKeepsInvariant(old(State()), caller, userId, password, email);
    }

    method LikePost(caller: Option<Identity>, postId: Id) returns (r: Result<Post>)
      requires Valid()
      modifies this
      ensures Valid()
      ensures Outcome(State(), r) == StoreModel.LikePost(old(State()), caller, postId)
    {
      if caller.None? {
        return Err(Failure(LikeLoginMessage));
      }
      var found := if postId in posts then Some(posts[postId]) else None;
      if found.None? {
        // `post.postAuthor` of a null result
        return Err(NullDereference);
      }
      if found.value.postAuthor == caller.value.username {
        return Err(Failure(LikeOwnPostMessage));
      }
      var post := posts[postId].(likes := posts[postId].likes + 1);
      posts := posts[postId := post];
      r := Ok(post);
      MutationProperties.LikePostKeepsInvariant(old(State()), caller, postId);
    }

    method EditPost(caller: Option<Identity>, postId: Id, postDesc: string) returns (r: Result<Option<Post>>)
      requires Valid()
      modifies this
      ensures Valid()
      ensures Outcome(State(), r) == StoreModel.EditPost(old(State()), caller, postId, postDesc)
    {
      if caller.None? {
        return Err(Failure(EditLoginMessage));
      }
      if postId !in posts {
        return Ok(None);
      }
      var post := posts[postId].(postDesc := Some(Trim(postDesc)));
      posts := posts[postId := post];
      r := Ok(Some(post));
      MutationProperties.EditPostKeepsInvariant(old(State()), caller, postId, postDesc);
    }
  }
}
