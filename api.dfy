/**
 * The `/recommend` endpoint (src/api.py): the request body, the clamp that
 * keeps `top_k` between 1 and 10, and the response that echoes the query
 * next to the recommendations. The HTTP layer and `/health` are outside the
 * model.
 */
module Api {
  import opened Wrappers
  import opened Recommend

  /** The request body; `topK` is `None` when the client sends `null`, 10 when it sends nothing. */
  datatype RecommendRequest = RecommendRequest(query: string, topK: Option<int>)

  datatype RecommendResponse = RecommendResponse(query: string, recommendations: seq<Recommendation>)

  /** `min(max(req.top_k or 10, 1), 10)`; `or` also replaces a zero. */
  function ClampTopK(topK: Option<int>): (k: int)
    ensures 1 <= k <= 10
    ensures topK.None? || topK.value == 0 ==> k == 10
    ensures topK.Some? && topK.value < 0 ==> k == 1
    ensures topK.Some? && topK.value > 10 ==> k == 10
    ensures topK.Some? && 1 <= topK.value <= 10 ==> k == topK.value
  {
    var requested := if topK.None? || topK.value == 0 then 10 else topK.value;
    var atLeastOne := if requested < 1 then 1 else requested;
    if atLeastOne > 10 then 10 else atLeastOne
  }

  /**
   * `recommend`: answer with the query and the recommender's list for the
   * clamped `top_k`; the index is asked for 30 neighbours, so the list has
   * exactly that many entries.
   */
  method HandleRecommend(rec: Recommender, req: RecommendRequest, sims: seq<real>, idxs: seq<int>, order: seq<nat>)
    returns (resp: RecommendResponse)
    requires |sims| == |idxs| == 30
    requires ValidHits(|rec.catalog|, idxs)
    requires IsPermutation(order, |idxs|)
    requires SortsDescending(order, Rerank.Scores(req.query, Candidates(rec.catalog, idxs), sims))
    ensures resp.query == req.query
    ensures resp.recommendations == Pipeline(rec.catalog, req.query, ClampTopK(req.topK), sims, idxs, order)
    ensures |resp.recommendations| == ClampTopK(req.topK)
  {
    var topK := ClampTopK(req.topK);
    var out := rec.Recommend(req.query, topK, sims, idxs, order);
    resp := RecommendResponse(req.query, out);
  }
}
