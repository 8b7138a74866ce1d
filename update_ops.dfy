/** The document-store update operators that the resolvers use on array fields,
    modelled by their effect on the array of one document. */
module UpdateOps {

  /** `$addToSet`: appends `x` unless an equal element is already present. */
  function AddToSet<T(==,!new)>(s: seq<T>, x: T): (r: seq<T>)
    ensures x in r
    ensures forall y :: y in r <==> y in s || y == x
    ensures s <= r && |r| <= |s| + 1
    ensures x in s ==> r == s
  {
    if x in s then s else s + [x]
  }

  /** Adding an absent element leaves exactly one copy of it. */
  lemma AddToSetAbsent<T(!new)>(s: seq<T>, x: T)
    requires x !in s
    ensures AddToSet(s, x) == s + [x]
    ensures multiset(AddToSet(s, x))[x] == 1
  {
  }

  /** `$addToSet` is idempotent. */
  lemma AddToSetIdempotent<T(!new)>(s: seq<T>, x: T)
    ensures AddToSet(AddToSet(s, x), x) == AddToSet(s, x)
  {
  }

  /** `$pull` with a plain value: matches the elements equal to `v`. */
  function Equals<T(==)>(v: T): T -> bool
  {
    x => x == v
  }

  /** `$pull`: removes every element the condition matches, keeping the order
      of the others. */
  function Pull<T(!new)>(s: seq<T>, matches: T -> bool): (r: seq<T>)
    ensures |r| <= |s|
    ensures forall y :: y in r <==> y in s && !matches(y)
  {
    if s == [] then []
    else (if matches(s[0]) then [] else [s[0]]) + Pull(s[1..], matches)
  }

  /** `$pull` works element by element: pulling from a concatenation is the
      concatenation of the pulls, so the survivors keep their relative order. */
  lemma {:induction false} PullAppend<T(!new)>(a: seq<T>, b: seq<T>, matches: T -> bool)
    ensures Pull(a + b, matches) == Pull(a, matches) + Pull(b, matches)
  {
    if a == [] {
      assert a + b == b;
    } else {
      assert (a + b)[1..] == a[1..] + b;
      PullAppend(a[1..], b, matches);
    }
  }

  /** Each element that does not match keeps its multiplicity; each one that
      matches is gone. */
  lemma {:induction false} PullCount<T(!new)>(s: seq<T>, matches: T -> bool, y: T)
    ensures multiset(Pull(s, matches))[y] == if matches(y) then 0 else multiset(s)[y]
  {
    if s != [] {
      PullCount(s[1..], matches, y);
      assert s == [s[0]] + s[1..];
    }
  }

  /** Pulling when nothing matches changes nothing. */
  lemma {:induction false} PullNothing<T(!new)>(s: seq<T>, matches: T -> bool)
    requires forall y :: y in s ==> !matches(y)
    ensures Pull(s, matches) == s
  {
    if s != [] {
      PullNothing(s[1..], matches);
    }
  }

  /** `r` is `s` with some elements left out, the rest in their order. */
  predicate Subsequence<T(==)>(r: seq<T>, s: seq<T>)
    decreases |s|
  {
    if r == [] then true
    else if s == [] then false
    else (r[0] == s[0] && Subsequence(r[1..], s[1..])) || Subsequence(r, s[1..])
  }

  /** The survivors of `$pull` keep their relative order. */
  lemma {:induction false} PullSubsequence<T(!new)>(s: seq<T>, matches: T -> bool)
    ensures Subsequence(Pull(s, matches), s)
  {
    if s != [] {
      PullSubsequence(s[1..], matches);
      var rest := Pull(s[1..], matches);
      if matches(s[0]) {
        assert Pull(s, matches) == rest;
      } else {
        var r := [s[0]] + rest;
        assert Pull(s, matches) == r;
        assert r[0] == s[0] && r[1..] == rest;
      }
    }
  }

  /** Positional update through an array filter (`$set` on `a.$[e].f` with
      `arrayFilters`): every element the filter selects is updated, in place. */
  function SetWhere<T>(s: seq<T>, selected: T -> bool, update: T -> T): (r: seq<T>)
    ensures |r| == |s|
    ensures forall i :: 0 <= i < |s| ==> r[i] == if selected(s[i]) then update(s[i]) else s[i]
  {
    if s == [] then []
    else [if selected(s[0]) then update(s[0]) else s[0]] + SetWhere(s[1..], selected, update)
  }
}
