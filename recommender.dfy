/**
 * The list logic of the hybrid social-feed recommender. The learned parts
 * (TF-IDF similarity, the SVD score matrix, the popularity sums and the
 * shuffle) only ever order posts, so they enter as given orderings of post
 * ids: the content ranking, each trained user's collaborative ranking, the
 * popularity order and the shuffled list of all posts. What is modelled is
 * how those orderings are filtered, cut and merged into the feed, and the
 * interaction log that feeds "liked" and "viewed".
 */
module Recommender {
  import opened Wrappers
  import opened Sequences

  type PostId = int
  type UserId = int

  /** One row of the interaction log. Scores are only ever 1.0 or 5.0, held exactly as integers. */
  datatype Interaction = Interaction(userId: UserId, postId: PostId, interactionType: string, score: int)

  /** The score log_interaction gives an interaction: 5 for a like, 1 for anything else. */
  function InteractionScore(interactionType: string): (s: int)
    ensures s > 1 <==> interactionType == "like"
    ensures s == 1 || s == 5
  {
    if interactionType == "like" then 5 else 1
  }

  /** The user's posts with score above 1, in log order. */
  function LikedPosts(rows: seq<Interaction>, user: UserId): (r: seq<PostId>)
    ensures forall p :: p in r <==>
              exists i :: 0 <= i < |rows| && rows[i].userId == user && rows[i].score > 1 && rows[i].postId == p
  {
    if rows == [] then []
    else
      var init, last := rows[..|rows| - 1], rows[|rows| - 1];
      assert forall i :: 0 <= i < |init| ==> rows[i] == init[i];
      LikedPosts(init, user) + (if last.userId == user && last.score > 1 then [last.postId] else [])
  }

  /** Every post in the user's history, in log order. */
  function ViewedPosts(rows: seq<Interaction>, user: UserId): (r: seq<PostId>)
    ensures forall p :: p in r <==>
              exists i :: 0 <= i < |rows| && rows[i].userId == user && rows[i].postId == p
  {
    if rows == [] then []
    else
      var init, last := rows[..|rows| - 1], rows[|rows| - 1];
      assert forall i :: 0 <= i < |init| ==> rows[i] == init[i];
      ViewedPosts(init, user) + (if last.userId == user then [last.postId] else [])
  }

  /**
   * How many items a `top_n` loop takes at most: it appends before it
   * compares the length with `top_n`, so even `top_n < 1` lets one through.
   */
  function Quota(topN: int): (q: nat)
    ensures q >= 1 && q >= topN
    ensures topN >= 1 ==> q == topN
  {
    if topN < 1 then 1 else topN
  }

  /**
   * The filtering loop shared by both recommenders: walk the ranking, keep
   * what is not excluded, stop as soon as the kept list has `top_n` items.
   */
  method TakeUnseen(ranked: seq<PostId>, excluded: seq<PostId>, topN: int) returns (recs: seq<PostId>)
    ensures recs == Take(Without(ranked, excluded), Quota(topN))
    ensures IsSubseq(recs, ranked) && |recs| <= Quota(topN)
    ensures forall p :: p in recs ==> p !in excluded
    ensures |recs| < Quota(topN) ==> forall p :: p in ranked && p !in excluded ==> p in recs
  {
    recs := [];
    var i := 0;
    while i < |ranked|
      invariant 0 <= i <= |ranked|
      invariant recs == Without(ranked[..i], excluded)
      invariant |recs| < Quota(topN)
    {
      var pid := ranked[i];
      assert ranked[..i + 1][..i] == ranked[..i];
      if pid !in excluded {
        recs := recs + [pid];
        if |recs| >= topN {
          WithoutOfPrefix(ranked, excluded, i + 1);
          break;
        }
      }
      i := i + 1;
    }
    assert ranked[..|ranked|] == ranked;
    TakeWithoutMeaning(ranked, excluded, Quota(topN));
  }

  /** What a cut of the filtered ranking holds. */
  lemma TakeWithoutMeaning(ranked: seq<PostId>, excluded: seq<PostId>, q: nat)
    ensures var r := Take(Without(ranked, excluded), q);
      && IsSubseq(r, ranked)
      && (forall p :: p in r ==> p in ranked && p !in excluded)
      && (|r| < q ==> forall p :: p in ranked && p !in excluded ==> p in r)
  {
    var w := Without(ranked, excluded);
    WithoutMeaning(ranked, excluded);
    if |w| > q {
      SubseqPrefix(w, ranked, q);
      SubseqMembers(w[..q], ranked);
      assert forall p :: p in w[..q] ==> p in w;
    }
  }

  /** Some post of the catalogue is among the liked ids (`indices` is not empty). */
  predicate MatchesSomePost(posts: seq<PostId>, liked: seq<PostId>) {
    exists i :: 0 <= i < |posts| && posts[i] in liked
  }

  /** The posts of the i-th interleaving round: content first, then collaborative. */
  function Round(content: seq<PostId>, collab: seq<PostId>, i: nat): (s: seq<PostId>)
    ensures |s| <= 2
  {
    (if i < |content| then [content[i]] else []) + (if i < |collab| then [collab[i]] else [])
  }

  /** Round i holds content[i] and collab[i] where they exist, and nothing else. */
  lemma RoundMembers(content: seq<PostId>, collab: seq<PostId>, i: nat)
    ensures i < |content| ==> content[i] in Round(content, collab, i)
    ensures i < |collab| ==> collab[i] in Round(content, collab, i)
    ensures forall p :: p in Round(content, collab, i) ==> p in content || p in collab
  {
  }

  /** The candidates of the first `r` rounds, round by round. */
  function Rounds(content: seq<PostId>, collab: seq<PostId>, r: nat): (s: seq<PostId>)
    ensures |s| <= 2 * r
  {
    if r == 0 then [] else Rounds(content, collab, r - 1) + Round(content, collab, r - 1)
  }

  function MaxLen(a: seq<PostId>, b: seq<PostId>): nat {
    if |a| < |b| then |b| else |a|
  }

  /** Every content and collaborative candidate appears in the full interleaving. */
  lemma {:induction false} RoundsCover(content: seq<PostId>, collab: seq<PostId>, r: nat)
    ensures forall i :: 0 <= i < |content| && i < r ==> content[i] in Rounds(content, collab, r)
    ensures forall i :: 0 <= i < |collab| && i < r ==> collab[i] in Rounds(content, collab, r)
    ensures forall p :: p in Rounds(content, collab, r) ==> p in content || p in collab
  {
    if r > 0 {
      RoundsCover(content, collab, r - 1);
      var prev, last := Rounds(content, collab, r - 1), Round(content, collab, r - 1);
      assert Rounds(content, collab, r) == prev + last;
      RoundMembers(content, collab, r - 1);
      forall i | 0 <= i < |content| && i < r
        ensures content[i] in Rounds(content, collab, r)
      {
        if i < r - 1 {
          assert content[i] in prev;
        } else {
          assert content[i] in last;
        }
      }
      forall i | 0 <= i < |collab| && i < r
        ensures collab[i] in Rounds(content, collab, r)
      {
        if i < r - 1 {
          assert collab[i] in prev;
        } else {
          assert collab[i] in last;
        }
      }
    }
  }

  /** Admitting one round is admitting its content candidate, then its collaborative one. */
  lemma AdmittedRound(acc: seq<PostId>, content: seq<PostId>, collab: seq<PostId>, i: nat, viewed: seq<PostId>)
    ensures Admitted(acc, Round(content, collab, i), viewed) ==
              var afterContent := if i < |content| then Admit(acc, content[i], viewed) else acc;
              if i < |collab| then Admit(afterContent, collab[i], viewed) else afterContent
  {
    var r := Round(content, collab, i);
    if i < |content| && i < |collab| {
      assert r == [content[i], collab[i]];
      assert r[..1] == [content[i]];
      assert [content[i]][..0] == [];
      assert Admitted(acc, [content[i]], viewed) == Admit(acc, content[i], viewed);
    } else if i < |content| {
      assert r[..0] == [];
    } else if i < |collab| {
      assert r[..0] == [];
    }
  }

  /** Each round adds at most two posts to the feed. */
  lemma RoundGrowth(acc: seq<PostId>, content: seq<PostId>, collab: seq<PostId>, r: nat, viewed: seq<PostId>)
    requires r > 0
    ensures |Admitted(acc, Rounds(content, collab, r), viewed)| <=
              |Admitted(acc, Rounds(content, collab, r - 1), viewed)| + 2
  {
    var prev := Rounds(content, collab, r - 1);
    var round := Round(content, collab, r - 1);
    assert Rounds(content, collab, r) == prev + round;
    AdmittedConcat(acc, prev, round, viewed);
    AdmittedLength(Admitted(acc, prev, viewed), round, viewed);
  }

  /** One pass of the interleave loop body admits exactly round i. */
  lemma InterleaveStep(content: seq<PostId>, collab: seq<PostId>, viewed: seq<PostId>, i: nat,
                       before: seq<PostId>, afterContent: seq<PostId>, after: seq<PostId>)
    requires before == Admitted([], Rounds(content, collab, i), viewed)
    requires afterContent == if i < |content| then Admit(before, content[i], viewed) else before
    requires after == if i < |collab| then Admit(afterContent, collab[i], viewed) else afterContent
    ensures after == Admitted([], Rounds(content, collab, i + 1), viewed)
  {
    AdmittedRound(before, content, collab, i, viewed);
    AdmittedConcat([], Rounds(content, collab, i), Round(content, collab, i), viewed);
  }

  /** Every round before the one just finished left the feed short, and so did that round. */
  lemma ShortRoundsExtend(content: seq<PostId>, collab: seq<PostId>, viewed: seq<PostId>, n: int, i: nat)
    requires forall r :: 0 < r <= i ==> |Admitted([], Rounds(content, collab, r), viewed)| < n
    requires |Admitted([], Rounds(content, collab, i + 1), viewed)| < n
    ensures forall r :: 0 < r <= i + 1 ==> |Admitted([], Rounds(content, collab, r), viewed)| < n
  {
  }

  /**
   * The interleave phase: rounds i = 0, 1, ... up to the longer list, each
   * admitting content[i] and then collab[i] when new and not viewed, and
   * stopping after the first round that brings the feed to n.
   */
  method Interleave(content: seq<PostId>, collab: seq<PostId>, viewed: seq<PostId>, n: int)
    returns (finalRecs: seq<PostId>, ghost rounds: nat)
    ensures rounds <= MaxLen(content, collab)
    ensures MaxLen(content, collab) > 0 ==> rounds >= 1
    ensures finalRecs == Admitted([], Rounds(content, collab, rounds), viewed)
    ensures rounds < MaxLen(content, collab) ==> |finalRecs| >= n
    ensures forall r :: 0 < r < rounds ==> |Admitted([], Rounds(content, collab, r), viewed)| < n
  {
    finalRecs := [];
    rounds := 0;
    var maxLen := MaxLen(content, collab);
    var i := 0;
    while i < maxLen
      invariant 0 <= i <= maxLen && rounds == i
      invariant finalRecs == Admitted([], Rounds(content, collab, i), viewed)
      invariant forall r :: 0 < r <= i ==> |Admitted([], Rounds(content, collab, r), viewed)| < n
    {
      var before := finalRecs;
      if i < |content| {
        if content[i] !in finalRecs && content[i] !in viewed {
          finalRecs := finalRecs + [content[i]];
        }
      }
      var afterContent := finalRecs;
      assert afterContent == if i < |content| then Admit(before, content[i], viewed) else before;
      if i < |collab| {
        if collab[i] !in finalRecs && collab[i] !in viewed {
          finalRecs := finalRecs + [collab[i]];
        }
      }
      assert finalRecs == if i < |collab| then Admit(afterContent, collab[i], viewed) else afterContent;
      InterleaveStep(content, collab, viewed, i, before, afterContent, finalRecs);
      rounds := i + 1;
      if |finalRecs| >= n {
        break;
      }
      ShortRoundsExtend(content, collab, viewed, n, i);
      i := i + 1;
    }
  }

  /**
   * The popularity phase: admit posts in popularity order, comparing the
   * length with n after each post, so one post can still be added to a
   * feed that is already full.
   */
  method FillFromPopular(start: seq<PostId>, popular: seq<PostId>, viewed: seq<PostId>, n: int)
    returns (finalRecs: seq<PostId>, ghost used: nat)
    ensures used <= |popular|
    ensures |popular| > 0 ==> used >= 1
    ensures finalRecs == Admitted(start, popular[..used], viewed)
    ensures used < |popular| ==> |finalRecs| >= n
    ensures forall j :: 0 < j < used ==> |Admitted(start, popular[..j], viewed)| < n
  {
    finalRecs := start;
    used := 0;
    var i := 0;
    while i < |popular|
      invariant 0 <= i <= |popular| && used == i
      invariant finalRecs == Admitted(start, popular[..i], viewed)
      invariant forall j :: 0 < j <= i ==> |Admitted(start, popular[..j], viewed)| < n
    {
      var pid := popular[i];
      AdmittedSplit(start, popular, i, viewed);
      if pid !in finalRecs && pid !in viewed {
        finalRecs := finalRecs + [pid];
      }
      used := i + 1;
      if |finalRecs| >= n {
        break;
      }
      i := i + 1;
    }
  }

  /**
   * The random phase: walk the shuffled posts, comparing the length with n
   * before each one, so nothing is added once the feed holds n posts.
   */
  method RandomFill(start: seq<PostId>, shuffled: seq<PostId>, viewed: seq<PostId>, n: int)
    returns (finalRecs: seq<PostId>, ghost used: nat)
    ensures used <= |shuffled|
    ensures finalRecs == Admitted(start, shuffled[..used], viewed)
    ensures used < |shuffled| ==> |finalRecs| >= n
    ensures forall j :: 0 <= j < used ==> |Admitted(start, shuffled[..j], viewed)| < n
  {
    finalRecs := start;
    used := 0;
    var i := 0;
    while i < |shuffled|
      invariant 0 <= i <= |shuffled| && used == i
      invariant finalRecs == Admitted(start, shuffled[..i], viewed)
      invariant forall j :: 0 <= j < i ==> |Admitted(start, shuffled[..j], viewed)| < n
    {
      if |finalRecs| >= n {
        break;
      }
      var pid := shuffled[i];
      AdmittedSplit(start, shuffled, i, viewed);
      if pid !in finalRecs && pid !in viewed {
        finalRecs := finalRecs + [pid];
      }
      i := i + 1;
      used := i;
    }
  }

  /** The feed after the interleave phase is at most one post over its target (two when n < 1). */
  lemma InterleaveBound(content: seq<PostId>, collab: seq<PostId>, viewed: seq<PostId>, n: int, rounds: nat)
    requires forall r :: 0 < r < rounds ==> |Admitted([], Rounds(content, collab, r), viewed)| < n
    ensures |Admitted([], Rounds(content, collab, rounds), viewed)| <= Quota(n) + 1
  {
    if rounds > 0 {
      RoundGrowth([], content, collab, rounds, viewed);
      if rounds == 1 {
        assert Rounds(content, collab, 0) == [];
      }
    }
  }

  /**
   * A fill phase adds at most one element per candidate; so a phase that
   * stops once the feed reaches n, starting below n, never exceeds n.
   */
  lemma FillBound(start: seq<PostId>, xs: seq<PostId>, viewed: seq<PostId>, n: int, used: nat)
    requires used <= |xs| && |start| < n
    requires forall j :: 0 < j < used ==> |Admitted(start, xs[..j], viewed)| < n
    ensures |Admitted(start, xs[..used], viewed)| <= n
  {
    if used > 0 {
      AdmittedSplit(start, xs, used - 1, viewed);
      assert xs[..0] == [];
    }
  }

  /** Admitting no candidate, or only the first, from a list. */
  lemma AdmittedFirstStep(start: seq<PostId>, xs: seq<PostId>, viewed: seq<PostId>)
    ensures Admitted(start, xs[..0], viewed) == start
    ensures |xs| > 0 ==> Admitted(start, xs[..1], viewed) == Admit(start, xs[0], viewed)
  {
    assert xs[..0] == [];
    if |xs| > 0 {
      assert xs[..1][..0] == [];
    }
  }

  /** The popularity phase adds at most one post to a feed that is already full. */
  lemma PopularOvershoot(start: seq<PostId>, xs: seq<PostId>, viewed: seq<PostId>, n: int, used: nat)
    requires used <= |xs| && |start| >= n
    requires forall j :: 0 < j < used ==> |Admitted(start, xs[..j], viewed)| < n
    ensures used <= 1
    ensures |Admitted(start, xs[..used], viewed)| <= |start| + 1
  {
    AdmittedFirstStep(start, xs, viewed);
  }

  /** The random phase leaves a full feed as it is. */
  lemma RandomFillKeepsFullFeed(start: seq<PostId>, xs: seq<PostId>, viewed: seq<PostId>, n: int, used: nat)
    requires used <= |xs| && |start| >= n
    requires forall j :: 0 <= j < used ==> |Admitted(start, xs[..j], viewed)| < n
    ensures used == 0 && Admitted(start, xs[..used], viewed) == start
  {
    AdmittedFirstStep(start, xs, viewed);
  }

  /**
   * The bounds are reached: with a target of one post, a content and a
   * collaborative candidate in round 0 give two posts, and the popularity
   * phase still appends a third.
   */
  lemma OvershootExample()
    ensures Admitted([], Rounds([1], [2], 1), []) == [1, 2]
    ensures Admitted([1, 2], [3][..1], []) == [1, 2, 3]
  {
    AdmittedRound([], [1], [2], 0, []);
    assert Rounds([1], [2], 1) == Round([1], [2], 0);
    assert [3][..1] == [3];
    assert [3][..0] == [];
  }

  /**
   * The hybrid merge of recommend: interleave, then popularity, then random
   * fill. The feed holds no duplicate and no viewed post, at most two posts
   * more than asked for (the first two phases compare the length late),
   * only posts from the four lists, and falls short of n only when every
   * post of the shuffled list is in it or viewed.
   */
  method MergeFeed(contentRecs: seq<PostId>, collabRecs: seq<PostId>, popular: seq<PostId>,
                   shuffled: seq<PostId>, viewed: seq<PostId>, n: int) returns (finalRecs: seq<PostId>)
    ensures Clean(finalRecs, viewed)
    ensures |finalRecs| <= Quota(n) + 2
    ensures forall p :: p in finalRecs ==> p in contentRecs || p in collabRecs || p in popular || p in shuffled
    ensures |finalRecs| < n ==> forall p :: p in shuffled ==> p in viewed || p in finalRecs
  {
    var merged, rounds := Interleave(contentRecs, collabRecs, viewed, n);
    InterleavePhase(contentRecs, collabRecs, viewed, n, rounds);
    var withPopular, usedPopular := FillFromPopular(merged, popular, viewed, n);
    PopularPhase(merged, popular, viewed, n, usedPopular);
    ghost var used: nat;
    finalRecs, used := RandomFill(withPopular, shuffled, viewed, n);
    RandomPhase(withPopular, shuffled, viewed, n, used);
  }

  /** What the interleave phase leaves: a clean feed of candidates, at most one over the quota. */
  lemma InterleavePhase(content: seq<PostId>, collab: seq<PostId>, viewed: seq<PostId>, n: int, rounds: nat)
    requires forall r :: 0 < r < rounds ==> |Admitted([], Rounds(content, collab, r), viewed)| < n
    ensures var m := Admitted([], Rounds(content, collab, rounds), viewed);
      && Clean(m, viewed) && |m| <= Quota(n) + 1
      && forall p :: p in m ==> p in content || p in collab
  {
    AdmittedMeaning([], Rounds(content, collab, rounds), viewed);
    InterleaveBound(content, collab, viewed, n, rounds);
    RoundsCover(content, collab, rounds);
  }

  /** What the popularity phase leaves: still clean, at most two over the quota, only popular posts added. */
  lemma PopularPhase(start: seq<PostId>, popular: seq<PostId>, viewed: seq<PostId>, n: int, used: nat)
    requires Clean(start, viewed) && |start| <= Quota(n) + 1 && used <= |popular|
    requires forall j :: 0 < j < used ==> |Admitted(start, popular[..j], viewed)| < n
    ensures var w := Admitted(start, popular[..used], viewed);
      && Clean(w, viewed) && |w| <= Quota(n) + 2
      && forall p :: p in w ==> p in start || p in popular
  {
    AdmittedMeaning(start, popular[..used], viewed);
    if |start| < n {
      FillBound(start, popular, viewed, n, used);
    } else {
      PopularOvershoot(start, popular, viewed, n, used);
    }
    assert forall p :: p in popular[..used] ==> p in popular;
  }

  /**
   * What the random phase leaves: still clean and within the bound, only
   * shuffled posts added, and short of n only when no shuffled post is left.
   */
  lemma RandomPhase(start: seq<PostId>, shuffled: seq<PostId>, viewed: seq<PostId>, n: int, used: nat)
    requires Clean(start, viewed) && |start| <= Quota(n) + 2 && used <= |shuffled|
    requires forall j :: 0 <= j < used ==> |Admitted(start, shuffled[..j], viewed)| < n
    requires used < |shuffled| ==> |Admitted(start, shuffled[..used], viewed)| >= n
    ensures var f := Admitted(start, shuffled[..used], viewed);
      && Clean(f, viewed) && |f| <= Quota(n) + 2
      && (forall p :: p in f ==> p in start || p in shuffled)
      && (|f| < n ==> forall p :: p in shuffled ==> p in viewed || p in f)
  {
    AdmittedMeaning(start, shuffled[..used], viewed);
    if |start| < n {
      FillBound(start, shuffled, viewed, n, used);
    } else {
      RandomFillKeepsFullFeed(start, shuffled, viewed, n, used);
    }
    assert forall p :: p in shuffled[..used] ==> p in shuffled;
    if used == |shuffled| {
      assert shuffled[..used] == shuffled;
    }
  }

  class SocialRecommender {
    /** The post ids of the catalogue, in catalogue order. */
    const posts: seq<PostId>
    var interactions: seq<Interaction>
    /**
     * Each trained user's posts ordered by predicted score, highest first.
     * None when the model was built from an empty interaction log, in which
     * case the score table attribute was never assigned.
     */
    const predictedRankings: Option<map<UserId, seq<PostId>>>

    /** The recommender after its mock data and training, taken as given. */
    constructor (catalogue: seq<PostId>, rows: seq<Interaction>, trainedRankings: map<UserId, seq<PostId>>)
      ensures posts == catalogue && interactions == rows
      ensures predictedRankings == if rows == [] then None else Some(trainedRankings)
    {
      posts := catalogue;
      interactions := rows;
      predictedRankings := if rows == [] then None else Some(trainedRankings);
    }

    /**
     * get_content_recommendations: nothing without liked posts or when none
     * of them is in the catalogue; otherwise the ranking without the liked
     * posts, cut at top_n.
     */
    method ContentRecommendations(liked: seq<PostId>, ranked: seq<PostId>, topN: int) returns (recs: seq<PostId>)
      ensures liked == [] || !MatchesSomePost(posts, liked) ==> recs == []
      ensures liked != [] && MatchesSomePost(posts, liked) ==>
                recs == Take(Without(ranked, liked), Quota(topN))
      ensures IsSubseq(recs, ranked) && |recs| <= Quota(topN)
      ensures forall p :: p in recs ==> p !in liked
    {
      if liked == [] {
        return [];
      }
      if !MatchesSomePost(posts, liked) {
        return [];
      }
      recs := TakeUnseen(ranked, liked, topN);
    }

    /**
     * get_collaborative_recommendations: nothing for a user the model was
     * not trained on, or when there is no trained model; otherwise the user's
     * ranking without visited posts, cut at top_n, in score order.
     */
    method CollaborativeRecommendations(user: UserId, visited: seq<PostId>, topN: int) returns (recs: seq<PostId>)
      ensures predictedRankings.None? || user !in predictedRankings.value ==> recs == []
      ensures predictedRankings.Some? && user in predictedRankings.value ==>
                recs == Take(Without(predictedRankings.value[user], visited), Quota(topN)) &&
                IsSubseq(recs, predictedRankings.value[user])
      ensures |recs| <= Quota(topN) && forall p :: p in recs ==> p !in visited
    {
      if predictedRankings.None? || user !in predictedRankings.value {
        return [];
      }
      recs := TakeUnseen(predictedRankings.value[user], visited, topN);
    }

    /**
     * get_collaborative_recommendations as written: with no trained model
     * the guard reads an attribute that was never assigned and raises
     * instead of answering with no recommendations.
     */
    method CollaborativeAsWritten(user: UserId, visited: seq<PostId>, topN: int)
      returns (r: Result<seq<PostId>, string>)
      ensures predictedRankings.None? ==> r == Failure("AttributeError: predicted_scores_df")
      ensures predictedRankings.Some? && user !in predictedRankings.value ==> r == Success([])
      ensures predictedRankings.Some? && user in predictedRankings.value ==>
                r == Success(Take(Without(predictedRankings.value[user], visited), Quota(topN)))
    {
      if predictedRankings.None? {
        return Failure("AttributeError: predicted_scores_df");
      }
      var recs := CollaborativeRecommendations(user, visited, topN);
      return Success(recs);
    }

    /**
     * recommend, up to the list of post ids: the user's liked and viewed
     * posts from the log, the two recommenders with top_n = n, then the
     * merge.
     */
    method Recommend(user: UserId, n: int, contentRanking: seq<PostId>, popular: seq<PostId>,
                     shuffled: seq<PostId>) returns (finalRecs: seq<PostId>)
      ensures Clean(finalRecs, ViewedPosts(interactions, user))
      ensures |finalRecs| <= Quota(n) + 2
      ensures forall p :: p in finalRecs ==>
                p in contentRanking || p in popular || p in shuffled ||
                (predictedRankings.Some? && user in predictedRankings.value && p in predictedRankings.value[user])
      ensures |finalRecs| < n ==>
                forall p :: p in shuffled ==> p in ViewedPosts(interactions, user) || p in finalRecs
    {
      var liked := LikedPosts(interactions, user);
      var viewed := ViewedPosts(interactions, user);
      var contentRecs := ContentRecommendations(liked, contentRanking, n);
      var collabRecs := CollaborativeRecommendations(user, viewed, n);
      SubseqMembers(contentRecs, contentRanking);
      if predictedRankings.Some? && user in predictedRankings.value {
        SubseqMembers(collabRecs, predictedRankings.value[user]);
      }
      finalRecs := MergeFeed(contentRecs, collabRecs, popular, shuffled, viewed, n);
    }

    /** log_interaction: exactly one row is appended; the earlier rows are unchanged. */
    method LogInteraction(user: UserId, post: PostId, interactionType: string)
      modifies this`interactions
      ensures interactions == old(interactions) + [Interaction(user, post, interactionType, InteractionScore(interactionType))]
    {
      var score := InteractionScore(interactionType);
      interactions := interactions + [Interaction(user, post, interactionType, score)];
    }
  }

  /**
   * After a logged interaction the post is in the user's history, and a
   * like makes it a liked post; the other users' histories are unchanged.
   */
  lemma LoggedInteractionEffect(rows: seq<Interaction>, user: UserId, post: PostId, kind: string, other: UserId)
    requires other != user
    ensures var rows' := rows + [Interaction(user, post, kind, InteractionScore(kind))];
      && ViewedPosts(rows', user) == ViewedPosts(rows, user) + [post]
      && LikedPosts(rows', user) == LikedPosts(rows, user) + (if kind == "like" then [post] else [])
      && ViewedPosts(rows', other) == ViewedPosts(rows, other)
      && LikedPosts(rows', other) == LikedPosts(rows, other)
  {
    var rows' := rows + [Interaction(user, post, kind, InteractionScore(kind))];
    assert rows'[..|rows'| - 1] == rows;
  }

  /** A liked post is always a viewed post, so the merge never recommends a liked post. */
  lemma LikedAreViewed(rows: seq<Interaction>, user: UserId)
    ensures forall p :: p in LikedPosts(rows, user) ==> p in ViewedPosts(rows, user)
  {
  }
}
