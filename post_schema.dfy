/** The post schema: the shape of a post document with its embedded comments,
    the validators that guard it, the `trim` setters, and the defaults that a
    newly created document receives. */
module PostSchema {
  import opened Common

  /** A comment, embedded in its post's `comments` array. */
  datatype Comment = Comment(id: Id, commentText: string, commentAuthor: string, createdAt: int)

  /** A post document. `postTitle` and `postDesc` are optional in the document
      because a writer may leave them unset; validation then rejects it.
      `createdAt` is a timestamp; `category` refers to a category document. */
  datatype Post = Post(
    id: Id,
    postTitle: Option<string>,
    postDesc: Option<string>,
    postAuthor: string,
    createdAt: int,
    comments: seq<Comment>,
    category: Option<Id>,
    likes: nat)

  const DescMinLength: nat := 10
  const DescMaxLength: nat := 300
  const CommentMinLength: nat := 1
  const CommentMaxLength: nat := 250
  const DescRequiredMessage := "Leave a description!"

  // ---------------------------------------------------------------------
  // The `trim` setter (String.prototype.trim)
  // ---------------------------------------------------------------------

  /** The characters that ECMAScript's trim removes: white space and line
      terminators. */
  predicate IsWhitespace(c: char)
  {
    var n := c as int;
    n == 0x09 || n == 0x0A || n == 0x0B || n == 0x0C || n == 0x0D || n == 0x20 ||
    n == 0xA0 || n == 0x1680 || (0x2000 <= n <= 0x200A) || n == 0x2028 ||
    n == 0x2029 || n == 0x202F || n == 0x205F || n == 0x3000 || n == 0xFEFF
  }

  /** A string with no white space at either end. */
  predicate Trimmed(s: string)
  {
    s == [] || (!IsWhitespace(s[0]) && !IsWhitespace(s[|s| - 1]))
  }

  /** Drops the leading white space. */
  function TrimStart(s: string): string
  {
    if s != [] && IsWhitespace(s[0]) then TrimStart(s[1..]) else s
  }

  /** Drops the trailing white space. */
  function TrimEnd(s: string): string
  {
    if s != [] && IsWhitespace(s[|s| - 1]) then TrimEnd(s[..|s| - 1]) else s
  }

  function Trim(s: string): string
  {
    TrimEnd(TrimStart(s))
  }

  /** TrimStart keeps the suffix of `s` from its first character that is not
      white space on. */
  lemma {:induction false} TrimStartSpec(s: string)
    ensures |TrimStart(s)| <= |s| && TrimStart(s) == s[|s| - |TrimStart(s)|..]
    ensures forall i :: 0 <= i < |s| - |TrimStart(s)| ==> IsWhitespace(s[i])
    ensures TrimStart(s) == [] || !IsWhitespace(TrimStart(s)[0])
  {
    if s != [] && IsWhitespace(s[0]) {
      var u := s[1..];
      TrimStartSpec(u);
      var t := TrimStart(u);
      assert TrimStart(s) == t;
      assert u[|u| - |t|..] == s[|s| - |t|..];
      forall i | 0 <= i < |s| - |t| ensures IsWhitespace(s[i]) {
        if i > 0 { assert s[i] == u[i - 1]; }
      }
    }
  }

  /** TrimEnd keeps the prefix of `s` up to its last character that is not
      white space. */
  lemma {:induction false} TrimEndSpec(s: string)
    ensures |TrimEnd(s)| <= |s| && TrimEnd(s) == s[..|TrimEnd(s)|]
    ensures forall i :: |TrimEnd(s)| <= i < |s| ==> IsWhitespace(s[i])
    ensures TrimEnd(s) == [] || !IsWhitespace(TrimEnd(s)[|TrimEnd(s)| - 1])
  {
    if s != [] && IsWhitespace(s[|s| - 1]) {
      var u := s[..|s| - 1];
      TrimEndSpec(u);
      var t := TrimEnd(u);
      assert TrimEnd(s) == t;
      assert u[..|t|] == s[..|t|];
      forall i | |t| <= i < |s| ensures IsWhitespace(s[i]) {
        if i < |s| - 1 { assert s[i] == u[i]; }
      }
    }
  }

  /** Where the kept part of `s` starts: after its leading white space. */
  function TrimOffset(s: string): (i: nat)
    ensures i <= |s|
  {
    TrimStartSpec(s);
    |s| - |TrimStart(s)|
  }

  /** The offset is the index of the first character of `s` that is not
      white space, or `|s|` when there is none. */
  lemma TrimOffsetSpec(s: string)
    ensures forall k :: 0 <= k < TrimOffset(s) ==> IsWhitespace(s[k])
    ensures TrimOffset(s) < |s| ==> !IsWhitespace(s[TrimOffset(s)])
  {
    TrimStartSpec(s);
    var i := TrimOffset(s);
    if i < |s| {
      assert s[i] == TrimStart(s)[0];
    }
  }

  /** What trim keeps has no white space at either end. */
  lemma TrimIsTrimmed(s: string)
    ensures Trimmed(Trim(s))
  {
    var t := TrimStart(s);
    TrimStartSpec(s);
    TrimEndSpec(t);
    var r := TrimEnd(t);
    if r != [] {
      assert r[0] == t[0];
    }
  }

  /** What trim keeps is the stretch of `s` from `TrimOffset(s)` on, and
      everything after it is white space. */
  lemma TrimIsInfix(s: string)
    ensures TrimOffset(s) + |Trim(s)| <= |s|
    ensures Trim(s) == s[TrimOffset(s)..TrimOffset(s) + |Trim(s)|]
    ensures forall k :: TrimOffset(s) + |Trim(s)| <= k < |s| ==> IsWhitespace(s[k])
  {
    var t := TrimStart(s);
    TrimStartSpec(s);
    TrimEndSpec(t);
    PrefixOfSuffix(s, |s| - |t|, t, TrimEnd(t));
  }

  /** A prefix `r` of the suffix `t` of `s` starting at `i` is the stretch of
      `s` from `i`, and white space after `r` in `t` is white space in `s`. */
  lemma PrefixOfSuffix(s: string, i: nat, t: string, r: string)
    requires i <= |s| && t == s[i..]
    requires |r| <= |t| && r == t[..|r|]
    requires forall j :: |r| <= j < |t| ==> IsWhitespace(t[j])
    ensures i + |r| <= |s| && r == s[i..i + |r|]
    ensures forall k :: i + |r| <= k < |s| ==> IsWhitespace(s[k])
  {
    forall k | i + |r| <= k < |s| ensures IsWhitespace(s[k]) {
      assert s[k] == t[k - i];
    }
  }

  /** What trim keeps is the stretch of `s` from `TrimOffset(s)` on, with no
      white space at either end, and everything it drops is white space. */
  lemma TrimSpec(s: string)
    ensures Trimmed(Trim(s))
    ensures TrimOffset(s) + |Trim(s)| <= |s|
    ensures Trim(s) == s[TrimOffset(s)..TrimOffset(s) + |Trim(s)|]
    ensures forall k :: 0 <= k < TrimOffset(s) ==> IsWhitespace(s[k])
    ensures forall k :: TrimOffset(s) + |Trim(s)| <= k < |s| ==> IsWhitespace(s[k])
  {
    TrimStartSpec(s);
    TrimIsTrimmed(s);
    TrimIsInfix(s);
  }

  /** Trimming a string that is already trimmed changes nothing; in
      particular trim is idempotent. */
  lemma TrimOfTrimmed(s: string)
    requires Trimmed(s)
    ensures Trim(s) == s
  {
  }

  lemma TrimIdempotent(s: string)
    ensures Trim(Trim(s)) == Trim(s)
  {
    TrimSpec(s);
    TrimOfTrimmed(Trim(s));
  }

  /** Trim leaves nothing exactly when the string is white space only. */
  lemma TrimEmptyIffBlank(s: string)
    ensures Trim(s) == [] <==> forall i :: 0 <= i < |s| ==> IsWhitespace(s[i])
  {
    TrimSpec(s);
  }

  function TrimOption(v: Option<string>): Option<string>
  {
    if v.Some? then Some(Trim(v.value)) else None
  }

  // ---------------------------------------------------------------------
  // Validators
  // ---------------------------------------------------------------------

  /** The schema paths that carry validators. */
  datatype Path = PostTitle | PostDesc | PostAuthor | CommentText | CommentAuthor

  /** A failed validator: `required`, `minlength` or `maxlength` on a path. */
  datatype Violation =
    | Required(path: Path)
    | TooShort(path: Path, minLength: nat)
    | TooLong(path: Path, maxLength: nat)

  /** The custom message a `required` validator reports, if the schema gives
      one; only the description has one. */
  function RequiredMessage(path: Path): (m: Option<string>)
    ensures m.Some? <==> path == PostDesc
  {
    if path == PostDesc then Some(DescRequiredMessage) else None
  }

  function AsSet(v: Option<Violation>): set<Violation>
  {
    if v.Some? then {v.value} else {}
  }

  /** `required` on a string path: an unset value and the empty string fail. */
  function RequiredViolation(path: Path, v: Option<string>): Option<Violation>
  {
    if v.None? || v.value == "" then Some(Required(path)) else None
  }

  /** The description's validators in the order they run (required first,
      then the length bounds); the first that fails is reported. */
  function DescViolation(d: Option<string>): Option<Violation>
  {
    if d.None? || d.value == "" then Some(Required(PostDesc))
    else if |d.value| < DescMinLength then Some(TooShort(PostDesc, DescMinLength))
    else if |d.value| > DescMaxLength then Some(TooLong(PostDesc, DescMaxLength))
    else None
  }

  /** The comment text carries length bounds only, no `required`. */
  function CommentTextViolation(text: string): Option<Violation>
  {
    if |text| < CommentMinLength then Some(TooShort(CommentText, CommentMinLength))
    else if |text| > CommentMaxLength then Some(TooLong(CommentText, CommentMaxLength))
    else None
  }

  function CommentViolations(c: Comment): set<Violation>
  {
    AsSet(CommentTextViolation(c.commentText)) +
    AsSet(RequiredViolation(CommentAuthor, Some(c.commentAuthor)))
  }

  function CommentsViolations(cs: seq<Comment>): set<Violation>
  {
    if cs == [] then {} else CommentViolations(cs[0]) + CommentsViolations(cs[1..])
  }

  /** Everything that document validation reports for `p`. */
  function Violations(p: Post): set<Violation>
  {
    AsSet(RequiredViolation(PostTitle, p.postTitle)) +
    AsSet(DescViolation(p.postDesc)) +
    AsSet(RequiredViolation(PostAuthor, Some(p.postAuthor))) +
    CommentsViolations(p.comments)
  }

  // ---------------------------------------------------------------------
  // Validity, stated directly
  // ---------------------------------------------------------------------

  predicate ValidCommentText(text: string)
  {
    CommentMinLength <= |text| <= CommentMaxLength
  }

  predicate ValidComment(c: Comment)
  {
    ValidCommentText(c.commentText) && c.commentAuthor != ""
  }

  /** A post the schema accepts: a non-empty title, a description of 10 to
      300 characters, a non-empty author and valid comments; `category` and
      `likes` are unconstrained. */
  predicate ValidPost(p: Post)
  {
    && p.postTitle.Some? && p.postTitle.value != ""
    && p.postDesc.Some? && DescMinLength <= |p.postDesc.value| <= DescMaxLength
    && p.postAuthor != ""
    && forall c :: c in p.comments ==> ValidComment(c)
  }

  lemma CommentViolationsEmpty(c: Comment)
    ensures CommentViolations(c) == {} <==> ValidComment(c)
  {
  }

  lemma {:induction false} CommentsViolationsEmpty(cs: seq<Comment>)
    ensures CommentsViolations(cs) == {} <==> forall c :: c in cs ==> ValidComment(c)
  {
    if cs != [] {
      CommentsViolationsEmpty(cs[1..]);
      CommentViolationsEmpty(cs[0]);
      assert forall c :: c in cs <==> c == cs[0] || c in cs[1..];
    }
  }

  /** Validation reports nothing exactly for the valid posts. */
  lemma ViolationsEmptyIffValid(p: Post)
    ensures Violations(p) == {} <==> ValidPost(p)
  {
    CommentsViolationsEmpty(p.comments);
  }

  /** The category is optional: setting or clearing it never affects validity. */
  lemma CategoryIsOptional(p: Post, category: Option<Id>)
    ensures ValidPost(p.(category := category)) <==> ValidPost(p)
    ensures Violations(p.(category := category)) == Violations(p)
  {
  }

  // ---------------------------------------------------------------------
  // Creation
  // ---------------------------------------------------------------------

  /** A post as `create` builds it from the given fields: the `trim` setters
      apply to title, description and author, and the defaults fill in the
      rest (no category, no comments, no likes, created now). */
  function NewPost(id: Id, postTitle: Option<string>, postDesc: Option<string>, postAuthor: string, now: int): Post
  {
    Post(id, TrimOption(postTitle), TrimOption(postDesc), Trim(postAuthor), now, [], None, 0)
  }

  /** A comment as an update casts it: a fresh id and the current time. */
  function NewComment(id: Id, commentText: string, commentAuthor: string, now: int): Comment
  {
    Comment(id, commentText, commentAuthor, now)
  }

  /** A new post starts with no likes, no comments and no category, is dated
      at its creation, and stores its title, description and author trimmed. */
  lemma NewPostDefaults(id: Id, postTitle: Option<string>, postDesc: Option<string>, postAuthor: string, now: int)
    ensures var p := NewPost(id, postTitle, postDesc, postAuthor, now);
      && p.likes == 0 && p.comments == [] && p.category == None && p.createdAt == now
      && Trimmed(p.postAuthor)
      && (p.postTitle.Some? ==> Trimmed(p.postTitle.value))
      && (p.postDesc.Some? ==> Trimmed(p.postDesc.value))
  {
    TrimSpec(postAuthor);
    if postTitle.Some? { TrimSpec(postTitle.value); }
    if postDesc.Some? { TrimSpec(postDesc.value); }
  }

  /** When a new post passes validation: the limits apply to the trimmed values. */
  lemma NewPostValidity(id: Id, postTitle: Option<string>, postDesc: Option<string>, postAuthor: string, now: int)
    ensures ValidPost(NewPost(id, postTitle, postDesc, postAuthor, now)) <==>
      && postTitle.Some? && Trim(postTitle.value) != ""
      && postDesc.Some? && DescMinLength <= |Trim(postDesc.value)| <= DescMaxLength
      && Trim(postAuthor) != ""
  {
  }

  /** A post created without a title always fails validation on `postTitle`. */
  lemma UntitledPostRejected(id: Id, postDesc: Option<string>, postAuthor: string, now: int)
    ensures Required(PostTitle) in Violations(NewPost(id, None, postDesc, postAuthor, now))
    ensures !ValidPost(NewPost(id, None, postDesc, postAuthor, now))
  {
  }

  /** A missing or blank description is rejected by `required`, whose
      message is "Leave a description!". */
  lemma BlankDescriptionRejected(id: Id, postTitle: Option<string>, postDesc: Option<string>, postAuthor: string, now: int)
    requires postDesc.Some? ==> forall i :: 0 <= i < |postDesc.value| ==> IsWhitespace(postDesc.value[i])
    ensures Required(PostDesc) in Violations(NewPost(id, postTitle, postDesc, postAuthor, now))
    ensures RequiredMessage(PostDesc) == Some("Leave a description!")
  {
    if postDesc.Some? {
      TrimEmptyIffBlank(postDesc.value);
    }
  }
}
