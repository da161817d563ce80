/**
 * The template pool and the post selection rule of the X post generator
 * (post_generator.py, POST_TEMPLATES and XPostGenerator.generate_posts).
 *
 * The two library calls of the source, random.sample and random.choices, are
 * replaced by oracle inputs: the index sequences they pick.  Every contract
 * below holds for every outcome those calls may produce.
 */
module Generator {
  import opened Wrappers

  /** Number of entries in POST_TEMPLATES. */
  const POOL_SIZE := 30

  /**
   * POST_TEMPLATES: thirty pairwise-distinct, non-empty texts.  The literal
   * wording of the source's entries plays no part in the selection rule, so
   * each entry is an opaque tag that differs from every other in its last
   * character.
   */
  const POST_TEMPLATES: seq<string> := TemplatePool()

  /** The pool's entries: as many as the source lists, none repeated, none blank. */
  function TemplatePool(): (r: seq<string>)
    ensures |r| == POOL_SIZE
    ensures Distinct(r)
    ensures forall t :: t in r ==> t != ""
  {
    var pool := seq(POOL_SIZE, i requires 0 <= i < POOL_SIZE => "template-" + [(65 + i) as char]);
    assert forall i, j :: 0 <= i < j < POOL_SIZE ==> pool[i][9] != pool[j][9];
    pool
  }

  /** The ValueError random.sample raises for a sample size below 0 or above the pool size. */
  datatype GenerateError = SampleSizeOutOfRange

  /** No value occurs twice in s. */
  predicate Distinct<T(==)>(s: seq<T>) {
    forall i, j :: 0 <= i < j < |s| ==> s[i] != s[j]
  }

  /** Every index of picks names a position of a pool of size n. */
  predicate InRange(picks: seq<int>, n: nat) {
    forall i :: 0 <= i < |picks| ==> 0 <= picks[i] < n
  }

  /** What random.sample(pool, k) may pick from a pool of size n: k distinct positions. */
  predicate IsSampleDraw(picks: seq<int>, k: int, n: nat) {
    |picks| == k && InRange(picks, n) && Distinct(picks)
  }

  /** What random.choices(pool, k=k) may pick from a pool of size n: k positions, repeats allowed. */
  predicate IsChoicesDraw(picks: seq<int>, k: int, n: nat) {
    |picks| == k && InRange(picks, n)
  }

  /** The pool entries at the picked positions, in the order they were picked. */
  function Draw(pool: seq<string>, picks: seq<int>): (r: seq<string>)
    requires InRange(picks, |pool|)
    ensures |r| == |picks|
    ensures forall i :: 0 <= i < |r| ==> r[i] in pool
  {
    seq(|picks|, i requires 0 <= i < |picks| => pool[picks[i]])
  }

  /**
   * random.sample(pool, k): raises ValueError unless 0 <= k <= |pool|;
   * otherwise returns k entries taken without replacement.
   */
  function Sample(pool: seq<string>, k: int, picks: seq<int>): (r: Result<seq<string>, GenerateError>)
    requires 0 <= k <= |pool| ==> IsSampleDraw(picks, k, |pool|)
    ensures r.Failure? <==> !(0 <= k <= |pool|)
    ensures r.Success? ==> |r.value| == k
    ensures r.Success? ==> forall i :: 0 <= i < k ==> r.value[i] in pool
  {
    if 0 <= k <= |pool| then Success(Draw(pool, picks)) else Failure(SampleSizeOutOfRange)
  }

  /** What generate_posts demands of the two random calls it makes for this count. */
  predicate IsGenerateDraw(count: int, samplePicks: seq<int>, choicePicks: seq<int>) {
    (0 <= count <= POOL_SIZE ==> IsSampleDraw(samplePicks, count, POOL_SIZE)) &&
    (count > POOL_SIZE ==>
       IsSampleDraw(samplePicks, POOL_SIZE, POOL_SIZE) &&
       IsChoicesDraw(choicePicks, count - POOL_SIZE, POOL_SIZE))
  }

  /**
   * XPostGenerator.generate_posts(count).  Up to the pool size it samples
   * without replacement; beyond it, it takes a full shuffle of the pool and
   * tops it up with count - 30 draws with replacement.  A negative count makes
   * random.sample raise.
   */
  function GeneratePosts(count: int, samplePicks: seq<int>, choicePicks: seq<int>)
    : (r: Result<seq<string>, GenerateError>)
    requires IsGenerateDraw(count, samplePicks, choicePicks)
    ensures r.Failure? <==> count < 0
    ensures r.Success? ==> |r.value| == count
    ensures r.Success? ==> forall i :: 0 <= i < |r.value| ==> r.value[i] in POST_TEMPLATES
  {
    if count <= |POST_TEMPLATES| then
      Sample(POST_TEMPLATES, count, samplePicks)
    else
      Success(Sample(POST_TEMPLATES, |POST_TEMPLATES|, samplePicks).value + Draw(POST_TEMPLATES, choicePicks))
  }

  // ---------------------------------------------------------------------------
  // Drawing without replacement

  /** Distinct positions of a distinct pool give distinct entries. */
  lemma DrawDistinct(pool: seq<string>, picks: seq<int>)
    requires Distinct(pool) && InRange(picks, |pool|) && Distinct(picks)
    ensures Distinct(Draw(pool, picks))
  {
  }

  lemma {:induction false} DistinctSetSize(s: seq<int>)
    requires Distinct(s)
    ensures |set x | x in s| == |s|
  {
    if s != [] {
      var rest := s[1..];
      assert Distinct(rest) by {
        forall i, j | 0 <= i < j < |rest| ensures rest[i] != rest[j] {
          assert rest[i] == s[i + 1] && rest[j] == s[j + 1];
        }
      }
      DistinctSetSize(rest);
      assert (set x | x in s) == (set x | x in rest) + {s[0]};
      assert s[0] !in (set x | x in rest);
    }
  }

  lemma SubsetSize(a: set<int>, b: set<int>)
    requires a <= b
    ensures |a| <= |b|
  {
    assert b == a + (b - a);
  }

  /** Pigeonhole: n distinct positions of an n-entry pool name every position. */
  lemma FullSampleCovers(picks: seq<int>, n: nat)
    requires IsSampleDraw(picks, n, n)
    ensures forall j :: 0 <= j < n ==> j in picks
  {
    var picked := set x | x in picks;
    var all := set x | x in Positions(n);
    DistinctSetSize(picks);
    DistinctSetSize(Positions(n));
    forall j | 0 <= j < n
      ensures j in picks
    {
      assert Positions(n)[j] == j;
      if j !in picks {
        var others := all - {j};
        forall x | x in picked
          ensures x in others
        {
          assert Positions(n)[x] == x;
        }
        SubsetSize(picked, others);
        assert false;
      }
    }
  }

  /** In a sequence without repeats every value occurs at most once. */
  lemma {:induction false} DistinctMultiplicity<T>(s: seq<T>, x: T)
    requires Distinct(s)
    ensures multiset(s)[x] == if x in s then 1 else 0
  {
    if s != [] {
      var rest := s[1..];
      assert s == [s[0]] + rest;
      assert Distinct(rest) by {
        forall i, j | 0 <= i < j < |rest| ensures rest[i] != rest[j] {
          assert rest[i] == s[i + 1] && rest[j] == s[j + 1];
        }
      }
      DistinctMultiplicity(rest, x);
      if x == s[0] {
        assert x !in rest;
      }
    }
  }

  /** Two repeat-free sequences with the same members are permutations of each other. */
  lemma SameMembersPermutation<T>(a: seq<T>, b: seq<T>)
    requires Distinct(a) && Distinct(b)
    requires forall x :: x in a <==> x in b
    ensures multiset(a) == multiset(b)
  {
    forall x
      ensures multiset(a)[x] == multiset(b)[x]
    {
      DistinctMultiplicity(a, x);
      DistinctMultiplicity(b, x);
    }
  }

  // ---------------------------------------------------------------------------
  // Properties of generate_posts

  /** At most 30 posts: no template is chosen twice. */
  lemma PostsDistinctWithinPool(count: int, samplePicks: seq<int>, choicePicks: seq<int>)
    requires IsGenerateDraw(count, samplePicks, choicePicks)
    requires 0 <= count <= POOL_SIZE
    ensures GeneratePosts(count, samplePicks, choicePicks).Success?
    ensures Distinct(GeneratePosts(count, samplePicks, choicePicks).value)
  {
    DrawDistinct(POST_TEMPLATES, samplePicks);
  }

  /** More than 30 posts: the first 30 are a permutation of the pool. */
  lemma FirstBatchIsPermutation(count: int, samplePicks: seq<int>, choicePicks: seq<int>)
    requires IsGenerateDraw(count, samplePicks, choicePicks)
    requires count > POOL_SIZE
    ensures GeneratePosts(count, samplePicks, choicePicks).Success?
    ensures multiset(GeneratePosts(count, samplePicks, choicePicks).value[..POOL_SIZE])
         == multiset(POST_TEMPLATES)
  {
    var posts := GeneratePosts(count, samplePicks, choicePicks).value;
    var firstBatch := Draw(POST_TEMPLATES, samplePicks);
    assert posts[..POOL_SIZE] == firstBatch;
    DrawDistinct(POST_TEMPLATES, samplePicks);
    FullSampleCovers(samplePicks, POOL_SIZE);
    forall x | x in POST_TEMPLATES
      ensures x in firstBatch
    {
      var j :| 0 <= j < POOL_SIZE && POST_TEMPLATES[j] == x;
      assert j in samplePicks;
      var k :| 0 <= k < |samplePicks| && samplePicks[k] == j;
      assert firstBatch[k] == x;
    }
    SameMembersPermutation(firstBatch, POST_TEMPLATES);
  }

  /** More than 30 posts: every template occurs exactly once among the first 30. */
  lemma EachTemplateOnceInFirstBatch(count: int, samplePicks: seq<int>, choicePicks: seq<int>, t: string)
    requires IsGenerateDraw(count, samplePicks, choicePicks)
    requires count > POOL_SIZE
    requires t in POST_TEMPLATES
    ensures GeneratePosts(count, samplePicks, choicePicks).Success?
    ensures multiset(GeneratePosts(count, samplePicks, choicePicks).value[..POOL_SIZE])[t] == 1
  {
    FirstBatchIsPermutation(count, samplePicks, choicePicks);
    DistinctMultiplicity(POST_TEMPLATES, t);
  }

  /** More than 30 posts: the remaining count - 30 are exactly the with-replacement draws. */
  lemma TopUpIsChoices(count: int, samplePicks: seq<int>, choicePicks: seq<int>)
    requires IsGenerateDraw(count, samplePicks, choicePicks)
    requires count > POOL_SIZE
    ensures GeneratePosts(count, samplePicks, choicePicks).Success?
    ensures |GeneratePosts(count, samplePicks, choicePicks).value[POOL_SIZE..]| == count - POOL_SIZE
    ensures GeneratePosts(count, samplePicks, choicePicks).value[POOL_SIZE..]
         == Draw(POST_TEMPLATES, choicePicks)
  {
    var firstBatch := Draw(POST_TEMPLATES, samplePicks);
    assert GeneratePosts(count, samplePicks, choicePicks).value
        == firstBatch + Draw(POST_TEMPLATES, choicePicks);
  }

  /** The positions 0, 1, ..., n - 1 in order. */
  function Positions(n: nat): (r: seq<int>)
    ensures IsSampleDraw(r, n, n)
  {
    seq(n, i requires 0 <= i < n => i)
  }

  /** The top-up draws may repeat a template: two copies of the first template. */
  lemma TopUpMayRepeat()
    ensures IsGenerateDraw(POOL_SIZE + 2, Positions(POOL_SIZE), [0, 0])
    ensures GeneratePosts(POOL_SIZE + 2, Positions(POOL_SIZE), [0, 0]).value[POOL_SIZE]
         == GeneratePosts(POOL_SIZE + 2, Positions(POOL_SIZE), [0, 0]).value[POOL_SIZE + 1]
    ensures !Distinct(GeneratePosts(POOL_SIZE + 2, Positions(POOL_SIZE), [0, 0]).value)
  {
    var posts := GeneratePosts(POOL_SIZE + 2, Positions(POOL_SIZE), [0, 0]).value;
    assert posts[POOL_SIZE..] == Draw(POST_TEMPLATES, [0, 0]);
    assert posts[POOL_SIZE] == posts[POOL_SIZE + 1];
  }

  /** Every generated post is a non-empty cell value. */
  lemma PostsNonBlank(count: int, samplePicks: seq<int>, choicePicks: seq<int>)
    requires IsGenerateDraw(count, samplePicks, choicePicks)
    requires count >= 0
    ensures forall p :: p in GeneratePosts(count, samplePicks, choicePicks).value ==> p != ""
  {
  }
}
