/** The store the resolvers work on, as a value, and the effect of every
    mutation resolver on it. Each resolver is one atomic step from a store to
    a store and a result; a failed step leaves the store as it was. */
module StoreModel {
  import opened Common
  import opened PostSchema
  import UpdateOps

  /** A user document; `posts` lists the ids of the user's posts. */
  datatype User = User(id: Id, username: string, email: string, password: string, posts: seq<Id>)

  /** The identity a verified token puts in the request context. */
  datatype Identity = Identity(id: Id, username: string, email: string)

  /** What a resolver can throw. `Failure` is an `Error` built with a message;
      `NullDereference` is the type error of reading a field of a missing
      document. */
  datatype Error =
    | AuthenticationError
    | Failure(message: string)
    | ValidationError(violations: set<Violation>)
    | NullDereference

  datatype Result<T> = Ok(value: T) | Err(error: Error)

  /** The two collections, and the next fresh id. */
  datatype Db = Db(posts: map<Id, Post>, users: map<Id, User>, nextId: nat)

  /** A step's new store and its result. */
  datatype Outcome<T> = Outcome(db: Db, result: Result<T>)

  const LikeLoginMessage := "You need to be logged in to like posts!"
  const LikeOwnPostMessage := "You can't like your own post!"
  const EditLoginMessage := "You need to be logged in to edit posts!"
  const PasswordLoginMessage := "Oh no something went wrong"

  /** Documents are stored under their own ids, and every id in use, down to
      comments and the users' post lists, was handed out already. */
  ghost predicate Invariant(db: Db)
  {
    && (forall k :: k in db.posts ==> db.posts[k].id == k && k < db.nextId)
    && (forall k, c :: k in db.posts && c in db.posts[k].comments ==> c.id < db.nextId)
    && (forall k :: k in db.users ==> db.users[k].id == k && k < db.nextId)
    && (forall k, x :: k in db.users && x in db.users[k].posts ==> x < db.nextId)
  }

  /** The `$pull` condition of `removeComment`: both the id and the author match. */
  function CommentMatches(commentId: Id, author: string): Comment -> bool
  {
    (c: Comment) => c.id == commentId && c.commentAuthor == author
  }

  /** The array filter of `updateComment`: the comment's id matches. */
  function HasId(commentId: Id): Comment -> bool
  {
    (c: Comment) => c.id == commentId
  }

  function SetText(commentText: string): Comment -> Comment
  {
    (c: Comment) => c.(commentText := commentText)
  }

  /** `$addToSet` of a post id on a user's `posts`. */
  function LinkPost(u: User, postId: Id): User
  {
    u.(posts := UpdateOps.AddToSet(u.posts, postId))
  }

  /** `$pull` of a post id from a user's `posts`. */
  function UnlinkPost(u: User, postId: Id): User
  {
    u.(posts := UpdateOps.Pull(u.posts, UpdateOps.Equals(postId)))
  }

  /** `addUser`: creates the user (the token it also returns is not modelled). */
  function AddUser(db: Db, username: string, email: string, password: string): Outcome<User>
  {
    var u := User(db.nextId, username, email, password, []);
    Outcome(db.(users := db.users[u.id := u], nextId := db.nextId + 1), Ok(u))
  }

  /** The `addPost` resolver for a post built from the given title and
      description: create the post (validated), then add its id to the
      caller's `posts`. */
  function AddPostWith(db: Db, caller: Option<Identity>, postTitle: Option<string>, postDesc: string, now: int): Outcome<Post>
  {
    if caller.None? then Outcome(db, Err(AuthenticationError))
    else
      var post := NewPost(db.nextId, postTitle, Some(postDesc), caller.value.username, now);
      var violations := Violations(post);
      if violations != {} then Outcome(db, Err(ValidationError(violations)))
      else
        var me := caller.value.id;
        var users := if me in db.users then db.users[me := LinkPost(db.users[me], post.id)] else db.users;
        Outcome(Db(db.posts[post.id := post], users, db.nextId + 1), Ok(post))
  }

  /** `addPost` as written: the post it builds has a description and an
      author but no title. */
  function AddPost(db: Db, caller: Option<Identity>, postDesc: string, now: int): Outcome<Post>
  {
    AddPostWith(db, caller, None, postDesc, now)
  }

  /** `addComment`: update validators check the new comment, then it is
      added to the post's `comments`; no matching post gives `null`. */
  function AddComment(db: Db, caller: Option<Identity>, postId: Id, commentText: string, now: int): Outcome<Option<Post>>
  {
    if caller.None? then Outcome(db, Err(AuthenticationError))
    else
      var comment := NewComment(db.nextId, commentText, caller.value.username, now);
      var violations := CommentViolations(comment);
      if violations != {} then Outcome(db, Err(ValidationError(violations)))
      else if postId !in db.posts then Outcome(db, Ok(None))
      else
        var post := db.posts[postId].(comments := UpdateOps.AddToSet(db.posts[postId].comments, comment));
        Outcome(db.(posts := db.posts[postId := post], nextId := db.nextId + 1), Ok(Some(post)))
  }

  /** `removePost`: deletes the post if the caller wrote it, then pulls its id
      from the caller's `posts`. When nothing was deleted, reading the id of
      the missing document throws. */
  function RemovePost(db: Db, caller: Option<Identity>, postId: Id): Outcome<Post>
  {
    if caller.None? then Outcome(db, Err(AuthenticationError))
    else if postId !in db.posts || db.posts[postId].postAuthor != caller.value.username then
      Outcome(db, Err(NullDereference))
    else
      var me := caller.value.id;
      var users := if me in db.users then db.users[me := UnlinkPost(db.users[me], postId)] else db.users;
      Outcome(db.(posts := db.posts - {postId}, users := users), Ok(db.posts[postId]))
  }

  /** `removeComment`: pulls the caller's comments with the given id. */
  function RemoveComment(db: Db, caller: Option<Identity>, postId: Id, commentId: Id): Outcome<Option<Post>>
  {
    if caller.None? then Outcome(db, Err(AuthenticationError))
    else if postId !in db.posts then Outcome(db, Ok(None))
    else
      var p := db.posts[postId];
      var post := p.(comments := UpdateOps.Pull(p.comments, CommentMatches(commentId, caller.value.username)));
      Outcome(db.(posts := db.posts[postId := post]), Ok(Some(post)))
  }

  /** `updatePost`: its update document holds no schema field, so it only
      finds the caller's post and returns it as it was. */
  function UpdatePost(db: Db, caller: Option<Identity>, postId: Id): Outcome<Option<Post>>
  {
    if caller.None? then Outcome(db, Err(AuthenticationError))
    else if postId in db.posts && db.posts[postId].postAuthor == caller.value.username then
      Outcome(db, Ok(Some(db.posts[postId])))
    else Outcome(db, Ok(None))
  }

  /** `updateComment`: update validators check the new text, then it replaces
      the text of every comment with the given id, whoever wrote it. */
  function UpdateComment(db: Db, caller: Option<Identity>, postId: Id, commentId: Id, commentText: string): Outcome<Option<Post>>
  {
    if caller.None? then Outcome(db, Err(AuthenticationError))
    else if CommentTextViolation(commentText).Some? then
      Outcome(db, Err(ValidationError({CommentTextViolation(commentText).value})))
    else if postId !in db.posts then Outcome(db, Ok(None))
    else
      var p := db.posts[postId];
      var post := p.(comments := UpdateOps.SetWhere(p.comments, HasId(commentId), SetText(commentText)));
      Outcome(db.(posts := db.posts[postId := post]), Ok(Some(post)))
  }

  /** `updateUser`: overwrites the username and email of any user. */
  function UpdateUser(db: Db, caller: Option<Identity>, userId: Id, username: string, email: string): Outcome<Option<User>>
  {
    if caller.None? then Outcome(db, Err(AuthenticationError))
    else if userId !in db.users then Outcome(db, Ok(None))
    else
      var u := db.users[userId].(username := username, email := email);
      Outcome(db.(users := db.users[userId := u]), Ok(Some(u)))
  }

  /** `updatePassword`: overwrites the password of the user with the given id
      and email. */
  function UpdatePassword(db: Db, caller: Option<Identity>, userId: Id, password: string, email: string): Outcome<Option<User>>
  {
    if caller.None? then Outcome(db, Err(Failure(PasswordLoginMessage)))
    else if userId !in db.users || db.users[userId].email != email then Outcome(db, Ok(None))
    else
      var u := db.users[userId].(password := password);
      Outcome(db.(users := db.users[userId := u]), Ok(Some(u)))
  }

  /** `likePost`: looks the post up (reading the author of a missing post
      throws), refuses the author, and increments `likes` by one. */
  function LikePost(db: Db, caller: Option<Identity>, postId: Id): Outcome<Post>
  {
    if caller.None? then Outcome(db, Err(Failure(LikeLoginMessage)))
    else if postId !in db.posts then Outcome(db, Err(NullDereference))
    else if db.posts[postId].postAuthor == caller.value.username then
      Outcome(db, Err(Failure(LikeOwnPostMessage)))
    else
      var post := db.posts[postId].(likes := db.posts[postId].likes + 1);
      Outcome(db.(posts := db.posts[postId := post]), Ok(post))
  }

  /** `editPost`: sets the description of any post (through the `trim`
      setter), without validators. */
  function EditPost(db: Db, caller: Option<Identity>, postId: Id, postDesc: string): Outcome<Option<Post>>
  {
    if caller.None? then Outcome(db, Err(Failure(EditLoginMessage)))
    else if postId !in db.posts then Outcome(db, Ok(None))
    else
      var post := db.posts[postId].(postDesc := Some(Trim(postDesc)));
      Outcome(db.(posts := db.posts[postId := post]), Ok(Some(post)))
  }

  // ---------------------------------------------------------------------
  // The mutations as one state machine
  // ---------------------------------------------------------------------

  /** A call of one mutation resolver with its arguments. */
  datatype Mutation =
    | AddUserCall(username: string, email: string, password: string)
    | AddPostCall(caller: Option<Identity>, postDesc: string, now: int)
    | AddCommentCall(caller: Option<Identity>, postId: Id, commentText: string, now: int)
    | RemovePostCall(caller: Option<Identity>, postId: Id)
    | RemoveCommentCall(caller: Option<Identity>, postId: Id, commentId: Id)
    | UpdatePostCall(caller: Option<Identity>, postId: Id)
    | UpdateCommentCall(caller: Option<Identity>, postId: Id, commentId: Id, commentText: string)
    | UpdateUserCall(caller: Option<Identity>, userId: Id, username: string, email: string)
    | UpdatePasswordCall(caller: Option<Identity>, userId: Id, password: string, email: string)
    | LikePostCall(caller: Option<Identity>, postId: Id)
    | EditPostCall(caller: Option<Identity>, postId: Id, postDesc: string)

  /** The store after a mutation, and the error it threw, if any. */
  function Apply(db: Db, m: Mutation): (Db, Option<Error>)
  {
    match m
    case AddUserCall(username, email, password) => Settle(AddUser(db, username, email, password))
    case AddPostCall(caller, postDesc, now) => Settle(AddPost(db, caller, postDesc, now))
    case AddCommentCall(caller, postId, commentText, now) => Settle(AddComment(db, caller, postId, commentText, now))
    case RemovePostCall(caller, postId) => Settle(RemovePost(db, caller, postId))
    case RemoveCommentCall(caller, postId, commentId) => Settle(RemoveComment(db, caller, postId, commentId))
    case UpdatePostCall(caller, postId) => Settle(UpdatePost(db, caller, postId))
    case UpdateCommentCall(caller, postId, commentId, commentText) =>
      Settle(UpdateComment(db, caller, postId, commentId, commentText))
    case UpdateUserCall(caller, userId, username, email) => Settle(UpdateUser(db, caller, userId, username, email))
    case UpdatePasswordCall(caller, userId, password, email) =>
      Settle(UpdatePassword(db, caller, userId, password, email))
    case LikePostCall(caller, postId) => Settle(LikePost(db, caller, postId))
    case EditPostCall(caller, postId, postDesc) => Settle(EditPost(db, caller, postId, postDesc))
  }

  function Settle<T>(o: Outcome<T>): (Db, Option<Error>)
  {
    (o.db, if o.result.Err? then Some(o.result.error) else None)
  }

  /** Whether the resolver checks for a caller at all (`addUser` does not). */
  predicate Guarded(m: Mutation)
  {
    !m.AddUserCall?
  }

  /** The error a guarded resolver throws when there is no caller. */
  function NoCallerError(m: Mutation): Error
  {
    match m
    case UpdatePasswordCall(_, _, _, _) => Failure(PasswordLoginMessage)
    case LikePostCall(_, _) => Failure(LikeLoginMessage)
    case EditPostCall(_, _, _) => Failure(EditLoginMessage)
    case _ => AuthenticationError
  }
}
