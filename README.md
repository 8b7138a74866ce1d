# Posts, comments and users: the resolver layer as a verified state machine

This project models the backend of a small social-posting app. Users register and log in. They write short posts, comment on posts and like other users' posts. The model covers two source files:

- `server/schemas/resolvers.js`: the GraphQL query and mutation resolvers, with their authentication and ownership checks.
- `server/models/Post.js`: the post schema, with its required fields, length bounds, `trim` setters and defaults.

The model has these parts:

- `Common` (`common.dfy`): document ids and `Option`.
- `UpdateOps` (`update_ops.dfy`): the document-store update operators that the resolvers apply to array fields, each as a function on a sequence.
  - `$addToSet` appends an element if it is absent.
  - `$pull` removes every element that matches and keeps the order of the rest.
  - The `arrayFilters` form of `$set` updates every selected element in place.
- `PostSchema` (`post_schema.dfy`): `Post.js`.
  - The `Post` and `Comment` documents.
  - ECMAScript `trim`.
  - The validators, in the order Mongoose runs them per path: `required`, then `minlength`, then `maxlength`. Only the first failure on a path is reported.
  - `Violations`, which is what validation reports, and `ValidPost`, the same rules stated directly. A lemma proves they agree.
  - `NewPost`, which applies the `trim` setters and the creation defaults.
- `StoreModel` (`store_model.dfy`): the store as a value `Db`, holding a posts map, a users map and the next fresh id.
  - There is one function per mutation resolver: `AddUser`, `AddPost` (through `AddPostWith`), `AddComment`, `RemovePost`, `RemoveComment`, `UpdatePost`, `UpdateComment`, `UpdateUser`, `UpdatePassword`, `LikePost` and `EditPost`.
  - Each function maps a store, an optional caller identity (`context.user`) and the arguments to a new store and a result or an error.
  - `Mutation` and `Apply` gather these functions into one state machine.
- `MutationProperties` (`mutation_properties.dfy`): lemmas about that state machine. They state which caller may change what, which documents a call touches, what stays unchanged and which inputs produce which error.
- `PostOrder` (`post_order.dfy`): the newest-first order of the `posts` query.
- `Resolvers` (`resolvers.dfy`): the class `Store`.
  - Its fields `posts`, `users` and `nextId` are the collections that the resolvers change in place.
  - Each mutation except `updatePost` is a method with a `modifies this` clause. The method is proved to produce exactly the new state and result of its `StoreModel` function, and to keep the store invariant.
  - `UpdatePost` changes nothing, so its method has no `modifies` clause. Its result is proved to be that of `StoreModel.UpdatePost` on the current state.
  - Each resolver therefore appears twice: as a value-level function in `StoreModel` and as an in-place method on `Store`. The lemmas are proved once, about the functions. Each method's postcondition ties it to its function, so the lemmas carry over to the methods.
  - The queries (`users`, `user`, `posts`, `post`, `me`) and `login` are methods that only read the store.

The model reproduces several behaviours of the code as written:

- `addPost` builds its post without a `postTitle`, and the schema requires one. Creation therefore always fails validation, and the store does not change (`AddPostAlwaysRejected`). `AddPostWith` is the same resolver for a post built with a given title. It shows what a successful creation would do (`AddValidPostLinksOnce`).
- `removePost` and `likePost` read a field of the document they looked up without checking for `null`. A missing document, or for `removePost` a post by someone else, therefore ends in a `NullDereference` error with the store unchanged.
- `updatePost` passes `{ new: true }` as its update document, so it changes nothing. It returns the post only to its author.
- `editPost` checks neither ownership nor validators. `EditPostBreaksValidity` exhibits a user who edits another user's valid post into an invalid one.
- `updateComment` and `updateUser` have no ownership check.

Three behaviours of the code are easy to misread. The model follows the code:

- Comment mutations other than `removeComment` do not check the comment's author.
- A `removePost` that deletes nothing throws while reading `deletedPost._id`, before the pull from the user's list runs.
- `updatePassword` without a caller throws the message "Oh no something went wrong", not `AuthenticationError`.

## Model

| member | source | states |
|---|---|---|
| `UpdateOps.AddToSet` | server/schemas/resolvers.js:60-63 | `$addToSet` leaves the element present, adds nothing else, keeps the old array as a prefix and grows it by at most one; an element already present leaves the array unchanged |
| `PostSchema.Trim` | server/models/Post.js:5-21 | the `trim: true` setter: ECMAScript `String.prototype.trim`, which removes white space and line terminators at both ends; `TrimSpec` characterises it |
| `PostSchema.Violations` | server/models/Post.js:4-53 | the set of failures that document validation reports: for each of title, description and author, the first of `required`, `minlength` and `maxlength` that fails; then each comment's text bounds and required author |
| `PostSchema.ValidPost` | server/models/Post.js:4-53 | the posts the schema accepts: a non-empty title, a description of 10 to 300 characters, a non-empty author and valid comments; `ViolationsEmptyIffValid` proves it agrees with `Violations` |
| `PostSchema.NewPost` | server/models/Post.js:4-53 | a post as `create` builds it: title, description and author pass through the `trim` setter, and the defaults fill `createdAt`, `comments`, `category` and `likes`; `NewPostDefaults` and `NewPostValidity` state its properties |
| `PostSchema.NewComment` | server/models/Post.js:27-44 | a comment as a cast subdocument: the given text and author, a fresh id and the current time as `createdAt` |
| `PostOrder.NewestFirst` | server/schemas/resolvers.js:17 | the order of `sort({ createdAt: -1 })`: no post comes after one that is newer |
| `StoreModel.Invariant` | server/schemas/resolvers.js:30-217 | each document is stored under its own id, and every id in use (posts, comments, users, the users' post lists) was issued before; `StepKeepsInvariant` proves every mutation keeps it |
| `StoreModel.AddUser` | server/schemas/resolvers.js:31-35 | `addUser` creates a user with a fresh id and an empty `posts` list and returns it; no caller is needed |
| `StoreModel.AddPostWith` | server/schemas/resolvers.js:53-68 | `addPost` for a post built with a given title: no caller throws `AuthenticationError`; a post that fails validation is not stored; otherwise it is stored under a fresh id, and its id is added to the caller's `posts` |
| `StoreModel.AddPost` | server/schemas/resolvers.js:53-68 | `addPost` as written: the post is built from the description and the caller's username alone, with no title |
| `StoreModel.AddComment` | server/schemas/resolvers.js:69-85 | `addComment`: no caller throws; the update validators check the new comment before the lookup; an unknown post gives `null`; otherwise the comment is added with `$addToSet` and the updated post is returned |
| `StoreModel.RemovePost` | server/schemas/resolvers.js:86-104 | `removePost`: no caller throws; when no post has that id and the caller as author, reading `deletedPost._id` throws; otherwise the post is deleted and its id pulled from the caller's `posts` |
| `StoreModel.RemoveComment` | server/schemas/resolvers.js:105-125 | `removeComment`: no caller throws; an unknown post gives `null`; otherwise the comments with that id and the caller as author are pulled, and the updated post is returned |
| `StoreModel.UpdatePost` | server/schemas/resolvers.js:126-134 | `updatePost`: no caller throws; the update document has no schema field, so the store is unchanged; the post is returned when the caller wrote it, and `null` otherwise |
| `StoreModel.UpdateComment` | server/schemas/resolvers.js:135-156 | `updateComment`: no caller throws; the update validators check the new text; an unknown post gives `null`; otherwise every comment with that id gets the new text |
| `StoreModel.UpdateUser` | server/schemas/resolvers.js:157-166 | `updateUser`: no caller throws; an unknown user gives `null`; otherwise that user's username and email are overwritten |
| `StoreModel.UpdatePassword` | server/schemas/resolvers.js:167-176 | `updatePassword`: no caller throws "Oh no something went wrong"; no user with that id and email gives `null`; otherwise that user's password is overwritten |
| `StoreModel.LikePost` | server/schemas/resolvers.js:177-198 | `likePost`: no caller throws its login message; a missing post throws on `post.postAuthor`; the author is refused; otherwise `likes` goes up by one and the post is returned |
| `StoreModel.EditPost` | server/schemas/resolvers.js:199-216 | `editPost`: no caller throws its login message; an unknown post gives `null`; otherwise the description is set through the `trim` setter, with no validators and no ownership check |
| `StoreModel.Apply` | server/schemas/resolvers.js:30-217 | the mutation resolvers as one state machine: the new store and the thrown error, if any, of each call |
| `StoreModel.NoCallerError` | server/schemas/resolvers.js:53-216 | what each guarded resolver throws without a caller: the messages of `updatePassword`, `likePost` and `editPost`, and `AuthenticationError` for the rest |
| `PostSchema.ValidCommentText` | server/models/Post.js:29-33 | a comment text the schema accepts: 1 to 250 characters, with no `required` and no trim |
| `PostSchema.ValidComment` | server/models/Post.js:28-43 | a comment the schema accepts: a valid text and a non-empty `commentAuthor`; `CommentViolationsEmpty` proves it agrees with the validators |
| `Resolvers.Selected` | server/schemas/resolvers.js:16 | the `posts` filter: an absent or empty (falsy) `username` selects every post; otherwise the store's treatment of the `username` condition decides |
| `StoreModel.CommentMatches` | server/schemas/resolvers.js:111-116 | the `$pull` condition of `removeComment`: a comment matches when both its id and its author match |
| `StoreModel.HasId` | server/schemas/resolvers.js:149 | the array filter of `updateComment`: a comment is selected when its id matches |
| `StoreModel.SetText` | server/schemas/resolvers.js:144-146 | the `$set` of `updateComment` on a selected comment: only its `commentText` is replaced |
| `StoreModel.LinkPost` | server/schemas/resolvers.js:60-63 | the `$addToSet` of a new post's id on the caller's `posts` |
| `StoreModel.UnlinkPost` | server/schemas/resolvers.js:93-100 | the `$pull` of a deleted post's id from the caller's `posts` |
| `UpdateOps.Equals` | server/schemas/resolvers.js:98 | a `$pull` given a plain value matches the elements equal to it |
| `UpdateOps.Subsequence` | server/schemas/resolvers.js:108-121 | the relation "the first array is the second with some elements left out and the rest in order" |
| `UpdateOps.PullSubsequence` | server/schemas/resolvers.js:108-121 | the survivors of `$pull` keep their relative order |
| `UpdateOps.AddToSetAbsent` | server/schemas/resolvers.js:74-76 | adding an absent element appends it and leaves exactly one copy |
| `UpdateOps.AddToSetIdempotent` | server/schemas/resolvers.js:60-63 | a second `$addToSet` of the same element changes nothing |
| `UpdateOps.Pull` | server/schemas/resolvers.js:108-121 | `$pull` keeps exactly the elements that do not match and never lengthens the array |
| `UpdateOps.PullAppend` | server/schemas/resolvers.js:108-121 | `$pull` works element by element, so the surviving elements keep their relative order |
| `UpdateOps.PullCount` | server/schemas/resolvers.js:93-100 | every non-matching element keeps its multiplicity, and no matching element survives |
| `UpdateOps.PullNothing` | server/schemas/resolvers.js:108-121 | when nothing matches, `$pull` leaves the array unchanged |
| `UpdateOps.SetWhere` | server/schemas/resolvers.js:141-153 | the `arrayFilters` update keeps the length and changes exactly the selected positions |
| `PostSchema.TrimStartSpec` | server/models/Post.js:5-21 | the leading-trim step keeps a suffix, drops only white space and leaves no leading white space |
| `PostSchema.TrimEndSpec` | server/models/Post.js:5-21 | the trailing-trim step keeps a prefix, drops only white space and leaves no trailing white space |
| `PostSchema.TrimIsTrimmed` | server/models/Post.js:5-21 | a trimmed value has no white space at either end |
| `PostSchema.TrimIsInfix` | server/models/Post.js:5-21 | a trimmed value is a contiguous stretch of the input, and only white space follows it |
| `PostSchema.TrimSpec` | server/models/Post.js:5-21 | trim keeps a contiguous stretch with no white space at either end and drops only white space |
| `PostSchema.TrimOfTrimmed` | server/models/Post.js:5-21 | trimming a value that has no surrounding white space changes nothing |
| `PostSchema.TrimIdempotent` | server/models/Post.js:5-21 | trimming twice gives the same result as trimming once |
| `PostSchema.TrimEmptyIffBlank` | server/models/Post.js:10-16 | trim gives the empty string exactly when the input is all white space |
| `PostSchema.TrimOffsetSpec` | server/models/Post.js:5-21 | the start of the stretch that trim keeps is the index of the first character that is not white space, or the length of the string when there is none |
| `PostSchema.RequiredMessage` | server/models/Post.js:10-12 | among the `required` validators, only the description's carries a custom message ("Leave a description!") |
| `PostSchema.CommentViolationsEmpty` | server/models/Post.js:29-37 | a comment passes its validators exactly when its text has 1 to 250 characters and its author is non-empty |
| `PostSchema.CommentsViolationsEmpty` | server/models/Post.js:27-44 | a comment array passes validation exactly when every comment in it is valid |
| `PostSchema.ViolationsEmptyIffValid` | server/models/Post.js:4-53 | document validation reports nothing exactly when the post satisfies `ValidPost` (title, description of 10 to 300 characters, author, valid comments) |
| `PostSchema.CategoryIsOptional` | server/models/Post.js:45-48 | setting or clearing `category` never changes validity or the reported violations |
| `PostSchema.NewPostDefaults` | server/models/Post.js:22-52 | a created post has `likes` 0, no comments, no category and `createdAt` equal to the creation time, and its title, description and author are stored trimmed |
| `PostSchema.NewPostValidity` | server/models/Post.js:5-21 | a created post is valid exactly when it has a title that is non-empty after trimming, a trimmed description of 10 to 300 characters and an author that is non-empty after trimming |
| `PostSchema.UntitledPostRejected` | server/schemas/resolvers.js:55-58 | a post created without a title always fails `required` on `postTitle` |
| `PostSchema.BlankDescriptionRejected` | server/models/Post.js:10-16 | a missing or all-white-space description fails `required` with the message "Leave a description!" |
| `PostOrder.InsertNewestFirst` | server/schemas/resolvers.js:17 | the newest-first insertion adds exactly the new post to the list |
| `PostOrder.InsertKeepsNewestFirst` | server/schemas/resolvers.js:17 | inserting into a list ordered by descending `createdAt` keeps it ordered |
| `PostOrder.InsertKeepsNoRepeats` | server/schemas/resolvers.js:17 | inserting a post that is not yet listed keeps the list free of repeats and adds only that post |
| `MutationProperties.InsertFreshPostKeepsInvariant` | server/schemas/resolvers.js:55-63 | storing a new post under a fresh id keeps every document under its own id and every id issued |
| `MutationProperties.AddPostWithKeepsInvariant` | server/schemas/resolvers.js:53-68 | `addPost` keeps the store invariant |
| `MutationProperties.AddUserKeepsInvariant` | server/schemas/resolvers.js:31-35 | `addUser` keeps the store invariant |
| `MutationProperties.AddCommentKeepsInvariant` | server/schemas/resolvers.js:69-85 | `addComment` keeps the store invariant |
| `MutationProperties.RemovePostKeepsInvariant` | server/schemas/resolvers.js:86-104 | `removePost` keeps the store invariant |
| `MutationProperties.RemoveCommentKeepsInvariant` | server/schemas/resolvers.js:105-125 | `removeComment` keeps the store invariant |
| `MutationProperties.UpdateCommentKeepsInvariant` | server/schemas/resolvers.js:135-156 | `updateComment` keeps the store invariant |
| `MutationProperties.UpdateUserKeepsInvariant` | server/schemas/resolvers.js:157-166 | `updateUser` keeps the store invariant |
| `MutationProperties.UpdatePasswordKeepsInvariant` | server/schemas/resolvers.js:167-176 | `updatePassword` keeps the store invariant |
| `MutationProperties.LikePostKeepsInvariant` | server/schemas/resolvers.js:177-198 | `likePost` keeps the store invariant |
| `MutationProperties.EditPostKeepsInvariant` | server/schemas/resolvers.js:199-216 | `editPost` keeps the store invariant |
| `MutationProperties.StepKeepsInvariant` | server/schemas/resolvers.js:30-217 | every mutation keeps the store invariant |
| `MutationProperties.NoCallerNoChange` | server/schemas/resolvers.js:53-216 | every guarded mutation without a caller throws and leaves both collections unchanged; `likePost`, `editPost` and `updatePassword` throw their own messages, and the rest throw `AuthenticationError` |
| `MutationProperties.NoCallerMessagesDistinct` | server/schemas/resolvers.js:167-216 | the three messages thrown when there is no caller differ from one another |
| `MutationProperties.LikeOwnPostRefused` | server/schemas/resolvers.js:179-184 | a like by the post's author throws "You can't like your own post!" and the store is unchanged |
| `MutationProperties.LikeMissingPostFails` | server/schemas/resolvers.js:179-180 | liking a missing post throws, and the store is unchanged |
| `MutationProperties.LikeAddsOne` | server/schemas/resolvers.js:185-195 | a like by anyone else adds exactly 1 to that post's `likes`; nothing else changes, and the updated post is returned |
| `MutationProperties.LikesNeverDecrease` | server/schemas/resolvers.js:177-198 | in any store, no mutation lowers a post's `likes`; only a successful `likePost` on that post changes it, by +1 |
| `MutationProperties.RemoveOwnPost` | server/schemas/resolvers.js:86-101 | the author's `removePost` deletes the post, returns it and pulls its id from the author's `posts`; every other document and list entry is unchanged |
| `MutationProperties.RemovePostOnlyByAuthor` | server/schemas/resolvers.js:86-104 | `removePost` succeeds exactly when the caller is the author of an existing post; otherwise it throws and the store is unchanged |
| `MutationProperties.RemoveCommentExact` | server/schemas/resolvers.js:105-122 | `removeComment` removes exactly the comments with the given id by the caller; every other comment keeps its multiplicity and its order, the rest of the store is unchanged, and the post is returned |
| `MutationProperties.RemoveOthersCommentKeepsList` | server/schemas/resolvers.js:108-122 | a caller who wrote no comment with that id leaves the store unchanged and still gets the post |
| `MutationProperties.AddCommentAppends` | server/schemas/resolvers.js:69-82 | a valid comment on an existing post is appended with the given text, the caller as author, a fresh id and the current time; nothing else changes, and the post is read back with it |
| `MutationProperties.AddCommentValidates` | server/schemas/resolvers.js:78-81 | a comment whose text is outside 1 to 250 characters, or whose author is empty, fails validation and the store is unchanged |
| `MutationProperties.AddCommentUnknownPost` | server/schemas/resolvers.js:71-82 | a valid comment on an unknown post returns `null` and the store is unchanged |
| `MutationProperties.AddPostAlwaysRejected` | server/schemas/resolvers.js:53-68 | `addPost` never succeeds: with a caller it fails validation on `postTitle`, and the store is unchanged |
| `MutationProperties.AddValidPostLinksOnce` | server/schemas/resolvers.js:55-65 | a post that passes validation is stored under a fresh id, authored by the caller, with no likes and no comments; the caller's `posts` ends with its id and holds it exactly once |
| `MutationProperties.UpdatePostReadOnly` | server/schemas/resolvers.js:126-134 | `updatePost` never changes the store; it returns the post exactly when the caller is its author, and `null` otherwise |
| `MutationProperties.EditPostAnyCaller` | server/schemas/resolvers.js:199-213 | any caller overwrites any post's `postDesc`, which is stored trimmed; nothing else changes |
| `MutationProperties.EditPostBreaksValidity` | server/schemas/resolvers.js:202-212 | a user who is not the author can edit a valid post into one that the schema rejects |
| `MutationProperties.UpdateCommentOnlyText` | server/schemas/resolvers.js:141-153 | `updateComment` changes only the text, and only of the comments with the matching id, whoever wrote them; ids, authors, dates and order are kept |
| `MutationProperties.UpdateCommentValidates` | server/schemas/resolvers.js:148-152 | a new text outside 1 to 250 characters fails validation and the store is unchanged |
| `MutationProperties.UpdatePasswordNeedsEmail` | server/schemas/resolvers.js:167-174 | `updatePassword` changes only the password, and only of the user whose id and email both match |
| `MutationProperties.UpdateUserAnyCaller` | server/schemas/resolvers.js:157-164 | any caller overwrites any user's `username` and `email`; nothing else changes |
| `MutationProperties.AddCommentKeepsValidity` | server/schemas/resolvers.js:69-85 | `addComment` keeps every stored post valid |
| `MutationProperties.RemoveCommentKeepsValidity` | server/schemas/resolvers.js:105-125 | `removeComment` keeps every stored post valid |
| `MutationProperties.UpdateCommentKeepsValidity` | server/schemas/resolvers.js:135-156 | `updateComment` keeps every stored post valid |
| `MutationProperties.ValidityKeptExceptEditPost` | server/schemas/resolvers.js:53-198 | every mutation except `editPost` keeps every stored post valid |
| `Resolvers.Store.constructor` | server/schemas/resolvers.js:4-5 | the new store is empty and satisfies the invariant |
| `Resolvers.Store.AllUsers` | server/schemas/resolvers.js:6-8 | `users` returns every user document, each exactly once |
| `Resolvers.Store.UserByName` | server/schemas/resolvers.js:9-11 | `user` returns a user with the given username when one exists, and `null` otherwise |
| `Resolvers.Store.AllPosts` | server/schemas/resolvers.js:15-18 | `posts` returns exactly the selected posts, each once, ordered by descending `createdAt` |
| `Resolvers.Store.PostById` | server/schemas/resolvers.js:19-21 | `post` returns the post with that id, or `null` |
| `Resolvers.Store.Me` | server/schemas/resolvers.js:22-27 | `me` throws `AuthenticationError` exactly when there is no caller; otherwise it returns the caller's own user document, or `null` if there is none |
| `Resolvers.Store.Login` | server/schemas/resolvers.js:36-52 | `login` throws only `AuthenticationError`; it always throws when no user has the email; success returns a user with that email whose password check passed; it succeeds whenever some user has the email and every such user's password check passes |
| `Resolvers.Store.AddUser` | server/schemas/resolvers.js:31-35 | the new state and the result are those of `StoreModel.AddUser` |
| `Resolvers.Store.AddPostWith` | server/schemas/resolvers.js:53-68 | the new state and the result are those of `StoreModel.AddPostWith`: create and validate the post, then add its id to the caller's `posts` |
| `Resolvers.Store.AddPost` | server/schemas/resolvers.js:53-68 | the new state and the result are those of `StoreModel.AddPost` |
| `Resolvers.Store.AddComment` | server/schemas/resolvers.js:69-85 | the new state and the result are those of `StoreModel.AddComment` |
| `Resolvers.Store.RemovePost` | server/schemas/resolvers.js:86-104 | the new state and the result are those of `StoreModel.RemovePost` |
| `Resolvers.Store.RemoveComment` | server/schemas/resolvers.js:105-125 | the new state and the result are those of `StoreModel.RemoveComment` |
| `Resolvers.Store.UpdatePost` | server/schemas/resolvers.js:126-134 | `updatePost` reads only; its result is that of `StoreModel.UpdatePost` on the current state, which that function leaves unchanged |
| `Resolvers.Store.UpdateComment` | server/schemas/resolvers.js:135-156 | the new state and the result are those of `StoreModel.UpdateComment` |
| `Resolvers.Store.UpdateUser` | server/schemas/resolvers.js:157-166 | the new state and the result are those of `StoreModel.UpdateUser` |
| `Resolvers.Store.UpdatePassword` | server/schemas/resolvers.js:167-176 | the new state and the result are those of `StoreModel.UpdatePassword` |
| `Resolvers.Store.LikePost` | server/schemas/resolvers.js:177-198 | the new state and the result are those of `StoreModel.LikePost` |
| `Resolvers.Store.EditPost` | server/schemas/resolvers.js:199-216 | the new state and the result are those of `StoreModel.EditPost` |

## Left out

- `likes` is a JavaScript Number that `$inc` updates. The model uses an unbounded natural number, so number width and floating-point precision are not modelled.
- Token issuance and verification (`signToken`, and how `context.user` is derived) are code outside this model. The caller is a given optional `Identity`. `addUser` and `login` return the user without a token.
- `isCorrectPassword` and password hashing are code outside this model. `Login` takes the password check as a function parameter. `updatePassword` stores the password it is given, because no hashing hook for updates is visible.
- `server/models/User.js` is not part of this model. Its validators and unique indexes are not modelled, so `addUser` always succeeds and usernames and emails need not be unique.
- The `categories` query and the Category model: the query is a plain read of a collection that no resolver changes.
- `populate` of a user's `posts`: the queries return the stored ids.
- The `dateFormat` getter on `createdAt`. Dates are integer timestamps, and the current time is a parameter `now`.
- ObjectId generation is modelled as a counter `nextId`. A failed creation does not consume an id.
- `async`/`await` and concurrent requests: each resolver is one atomic step.
- GraphQL type definitions and argument nullability: every resolver argument is a present string or id.
- Lengths are counted in characters. JavaScript counts UTF-16 code units, so the two differ for characters outside the Basic Multilingual Plane.
- Query filters compare the caller's username verbatim. The `trim` setter that query casting may apply to a filter value on `postAuthor` is not modelled.
- The GraphQL formatting of errors: `throw AuthenticationError` and `new Error(...)` are modelled as `Error` values.
- The seeding script and the client components (post form, comment list, query documents) are outside the server core.
- Resolvers.Store.AllPosts: the filter on `username` names a field that posts do not have. How the document store applies it is therefore a parameter (`authorFilter`). The order among posts with equal `createdAt` is left open.
- Resolvers.Store.UserByName: when several users share a username, which one is returned is left open, as `findOne` leaves it.
- Resolvers.Store.Login: when several users share an email, which one is checked is left open, as `findOne` leaves it.
