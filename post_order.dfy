/** The order of the `posts` query: newest first by `createdAt`. */
module PostOrder {
  import opened PostSchema

  /** Every post comes no later than the one before it. */
  predicate NewestFirst(s: seq<Post>)
  {
    forall i, j :: 0 <= i < j < |s| ==> s[i].createdAt >= s[j].createdAt
  }

  /** No post is listed twice. */
  ghost predicate NoRepeats(s: seq<Post>)
  {
    forall p :: multiset(s)[p] <= 1
  }

  /** Places `p` in a newest-first list, before the first post that is not
      newer than it. */
  function InsertNewestFirst(s: seq<Post>, p: Post): (r: seq<Post>)
    ensures multiset(r) == multiset(s) + multiset{p}
  {
    if s == [] || s[0].createdAt <= p.createdAt then [p] + s
    else
      assert s == [s[0]] + s[1..];
      [s[0]] + InsertNewestFirst(s[1..], p)
  }

  /** Inserting keeps a newest-first list newest first. */
  lemma {:induction false} InsertKeepsNewestFirst(s: seq<Post>, p: Post)
    requires NewestFirst(s)
    ensures NewestFirst(InsertNewestFirst(s, p))
  {
    if s != [] && s[0].createdAt > p.createdAt {
      var rest := InsertNewestFirst(s[1..], p);
      InsertKeepsNewestFirst(s[1..], p);
      forall q | q in rest ensures q.createdAt <= s[0].createdAt {
        assert q in multiset(rest);
      }
    }
  }

  /** Inserting a post that is not yet listed keeps the list free of repeats. */
  lemma InsertKeepsNoRepeats(s: seq<Post>, p: Post)
    requires NoRepeats(s) && p !in s
    ensures NoRepeats(InsertNewestFirst(s, p))
    ensures forall q :: q in InsertNewestFirst(s, p) <==> q in s || q == p
  {
    var r := InsertNewestFirst(s, p);
    forall q ensures multiset(r)[q] <= 1 {
      if q == p {
        assert multiset(s)[q] == 0;
      }
    }
    assert forall q :: q in r <==> q in multiset(r);
  }
}
