/**
 * Which managed comments belong to a finding, and taking at most one of them out of a pool
 * (`findIndex` followed by `splice`).
 */
module CommentMatcher {
  import opened Wrappers
  import opened Text
  import opened Seqs
  import opened Coverity

  /** A review comment matches a finding when it sits on the finding's line and names its merge key. */
  function ReviewMatches(c: ReviewComment, f: Finding): (b: bool)
    ensures b <==> c.line == f.line && exists i :: OccursAt(c.body, f.mergeKey, i)
  {
    c.line == f.line && Contains(c.body, f.mergeKey)
  }

  /** An issue comment matches a merge key when it has a body and that body names the key. */
  function IssueMatches(c: IssueComment, mergeKey: string): (b: bool)
    ensures b <==> c.body.Some? && exists i :: OccursAt(c.body.value, mergeKey, i)
  {
    c.body.Some? && Contains(c.body.value, mergeKey)
  }

  /** The `findIndex` callback for the review pool. */
  function ReviewMatcher(f: Finding): ReviewComment -> bool
  {
    (c: ReviewComment) => ReviewMatches(c, f)
  }

  /** The `findIndex` callback for the issue pool. */
  function IssueMatcher(mergeKey: string): IssueComment -> bool
  {
    (c: IssueComment) => IssueMatches(c, mergeKey)
  }

  /** What a match takes out of a pool, and what is left. */
  datatype Taken<T> = Taken(taken: Option<T>, rest: seq<T>)

  /** The multiset of an optional value. */
  function OptionMultiset<T>(o: Option<T>): multiset<T>
  {
    if o.Some? then multiset{o.value} else multiset{}
  }

  /**
   * The first element of `pool` satisfying `p`, removed from the pool. Nothing is removed when
   * nothing matches; otherwise exactly that one element is, and the others keep their order.
   */
  function Take<T>(pool: seq<T>, p: T -> bool): (t: Taken<T>)
    ensures t.taken.None? <==> forall j :: 0 <= j < |pool| ==> !p(pool[j])
    ensures t.taken.None? ==> t.rest == pool
    ensures t.taken.Some? ==> p(t.taken.value) && |t.rest| == |pool| - 1
  {
    match FindIndex(pool, p)
    case None => Taken(None, pool)
    case Some(i) => Taken(Some(pool[i]), RemoveAt(pool, i))
  }

  /** What `Take` removes is the first match, and the rest of the pool keeps its order. */
  lemma {:induction false} TakeRemovesFirstMatch<T>(pool: seq<T>, p: T -> bool)
    ensures Take(pool, p).taken.Some? ==>
      exists i :: IsFirstMatch(pool, p, i) && Take(pool, p).taken.value == pool[i] && Take(pool, p).rest == RemoveAt(pool, i)
  {
    var r := FindIndex(pool, p);
    if r.Some? {
      assert IsFirstMatch(pool, p, r.value);
    }
  }

  /** `Take` removes at most one element: what it takes and what it leaves make up the pool. */
  lemma TakeConserves<T>(pool: seq<T>, p: T -> bool)
    ensures multiset(Take(pool, p).rest) + OptionMultiset(Take(pool, p).taken) == multiset(pool)
  {
    var r := FindIndex(pool, p);
    if r.Some? {
      RemoveAtConserves(pool, r.value);
    }
  }

  /** The filter callback keeping review comments that carry the managed-comment preface. */
  function ReviewHasPreface(preface: string): ReviewComment -> bool
  {
    (c: ReviewComment) => Contains(c.body, preface)
  }

  /** The filter callback keeping issue comments whose body is present and carries the preface. */
  function IssueHasPreface(preface: string): IssueComment -> bool
  {
    (c: IssueComment) => c.body.Some? && Contains(c.body.value, preface)
  }

  /** The managed review pool: the fetched review comments whose body carries the preface. */
  function ManagedReviewComments(fetched: seq<ReviewComment>, preface: string): (pool: seq<ReviewComment>)
    ensures forall j :: 0 <= j < |pool| ==> pool[j] in fetched && Contains(pool[j].body, preface)
    ensures forall j :: 0 <= j < |fetched| && Contains(fetched[j].body, preface) ==> fetched[j] in pool
    ensures forall c :: multiset(pool)[c] == if Contains(c.body, preface) then multiset(fetched)[c] else 0
  {
    var pool := Filter(fetched, ReviewHasPreface(preface));
    FilterCounts(fetched, ReviewHasPreface(preface));
    assert forall j :: 0 <= j < |pool| ==> ReviewHasPreface(preface)(pool[j]);
    assert forall j :: 0 <= j < |fetched| && Contains(fetched[j].body, preface) ==> ReviewHasPreface(preface)(fetched[j]);
    pool
  }

  /** The managed issue pool: the fetched issue comments with a body that carries the preface. */
  function ManagedIssueComments(fetched: seq<IssueComment>, preface: string): (pool: seq<IssueComment>)
    ensures forall j :: 0 <= j < |pool| ==>
      pool[j] in fetched && pool[j].body.Some? && Contains(pool[j].body.value, preface)
    ensures forall j :: 0 <= j < |fetched| && fetched[j].body.Some? && Contains(fetched[j].body.value, preface) ==>
      fetched[j] in pool
    ensures forall c :: multiset(pool)[c] == if c.body.Some? && Contains(c.body.value, preface) then multiset(fetched)[c] else 0
  {
    var pool := Filter(fetched, IssueHasPreface(preface));
    FilterCounts(fetched, IssueHasPreface(preface));
    assert forall j :: 0 <= j < |pool| ==> IssueHasPreface(preface)(pool[j]);
    assert forall j :: 0 <= j < |fetched| && fetched[j].body.Some? && Contains(fetched[j].body.value, preface) ==>
      IssueHasPreface(preface)(fetched[j]);
    pool
  }

  /**
   * The managed review pool keeps the fetched order: selecting from a concatenation selects from
   * each part in turn, and a single comment is kept exactly when its body carries the preface.
   */
  lemma ManagedReviewCommentsInOrder(a: seq<ReviewComment>, b: seq<ReviewComment>, preface: string)
    ensures ManagedReviewComments(a + b, preface) == ManagedReviewComments(a, preface) + ManagedReviewComments(b, preface)
    ensures forall c :: ManagedReviewComments([c], preface) == (if Contains(c.body, preface) then [c] else [])
  {
    FilterConcat(a, b, ReviewHasPreface(preface));
    forall c {
      FilterSingleton(c, ReviewHasPreface(preface));
    }
  }

  /** The same for the managed issue pool, which also drops comments without a body. */
  lemma ManagedIssueCommentsInOrder(a: seq<IssueComment>, b: seq<IssueComment>, preface: string)
    ensures ManagedIssueComments(a + b, preface) == ManagedIssueComments(a, preface) + ManagedIssueComments(b, preface)
    ensures forall c :: ManagedIssueComments([c], preface) == (if c.body.Some? && Contains(c.body.value, preface) then [c] else [])
  {
    FilterConcat(a, b, IssueHasPreface(preface));
    forall c {
      FilterSingleton(c, IssueHasPreface(preface));
    }
  }
}
