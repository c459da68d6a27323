/**
 * Category-balanced selection and the recommendation pipeline
 * (src/recommend.py). `diversify_by_type` works on the candidate frame
 * sorted by blended score; a row is identified by its position in that
 * frame, the role the frame's index labels play in the source (they stay
 * attached to the picked rows).
 */
module Recommend {
  import opened Wrappers
  import opened Catalog
  import opened Rerank

  /** A row of the candidate frame once the `score` column is added. */
  datatype Row = Row(item: Item, score: real)

  /** One entry of the returned list. */
  datatype Recommendation = Recommendation(assessmentName: string, url: string, score: real)

  function Min(a: int, b: int): int {
    if a <= b then a else b
  }

  /** `frame.head(k)`: the first k rows; a negative k drops the last -k rows instead. */
  function Head<T>(s: seq<T>, k: int): (r: seq<T>)
    ensures |r| <= |s| && r == s[..|r|]
    ensures k >= 0 ==> |r| == Min(k, |s|)
    ensures k < 0 ==> |r| == if |s| + k > 0 then |s| + k else 0
  {
    var n := if k >= 0 then Min(k, |s|) else if |s| + k > 0 then |s| + k else 0;
    s[..n]
  }

  /** The positions 0, 1, ..., n-1 of a frame of n rows, in frame order. */
  function Positions(n: nat): (r: seq<nat>)
    ensures |r| == n && forall i :: 0 <= i < n ==> r[i] == i
  {
    seq(n, i requires 0 <= i < n => i as nat)
  }

  function ToSet(s: seq<nat>): set<nat> {
    set x | x in s
  }

  function AsSeq(o: Option<nat>): seq<nat> {
    if o.Some? then [o.value] else []
  }

  /** `row.get("type_hint") == t`: a missing hint equals no category. */
  predicate IsType(rows: seq<Row>, i: int, t: string) {
    0 <= i < |rows| && rows[i].item.typeHint == Some(t)
  }

  /**
   * The scan of `pick_of_type`: the first position at or after `from`
   * that is not in `used` and whose row has type `t`.
   */
  function FirstOfType(rows: seq<Row>, t: string, used: set<nat>, from: nat): (r: Option<nat>)
    ensures r.Some? ==> from <= r.value && IsType(rows, r.value, t) && r.value !in used
    ensures forall j :: from <= j && j !in used && IsType(rows, j, t) ==> r.Some? && r.value <= j
    decreases |rows| - from
  {
    if from >= |rows| then None
    else if from !in used && IsType(rows, from, t) then Some(from)
    else FirstOfType(rows, t, used, from + 1)
  }

  /** The forced picks: the first K row if K is needed, then the first unused P row if P is needed. */
  function Forced(rows: seq<Row>, needs: Needs): seq<nat> {
    var ks := if needs.k then AsSeq(FirstOfType(rows, "K", {}, 0)) else [];
    var ps := if needs.p then AsSeq(FirstOfType(rows, "P", ToSet(ks), 0)) else [];
    ks + ps
  }

  /** The number of positions in [from, n) that are not in `used`. */
  function Free(n: nat, used: set<nat>, from: nat): nat
    decreases n - from
  {
    if from >= n then 0 else (if from in used then 0 else 1) + Free(n, used, from + 1)
  }

  /** The fill loop: the first `count` positions in [from, n) not in `used`, in frame order. */
  function Fill(n: nat, used: set<nat>, count: int, from: nat): seq<nat>
    decreases n - from
  {
    if from >= n || count <= 0 then []
    else if from in used then Fill(n, used, count, from + 1)
    else [from] + Fill(n, used, count - 1, from + 1)
  }

  /**
   * The fill takes as many free positions as it may and as there are, each
   * in range and unused, in increasing order, and every free position it
   * leaves out comes after all it takes.
   */
  lemma {:induction false} FillFacts(n: nat, used: set<nat>, count: int, from: nat)
    ensures var r := Fill(n, used, count, from);
      && |r| == Min(if count > 0 then count else 0, Free(n, used, from))
      && (forall j :: 0 <= j < |r| ==> from <= r[j] < n && r[j] !in used)
      && (forall j, k :: 0 <= j < k < |r| ==> r[j] < r[k])
      && (forall q :: from <= q < n && q !in used && q !in r ==> forall j :: 0 <= j < |r| ==> r[j] < q)
    decreases n - from
  {
    if from >= n || count <= 0 {
    } else {
      FillFacts(n, used, if from in used then count else count - 1, from + 1);
    }
  }

  /** What `diversify_by_type` returns, as positions of the sorted frame. */
  function Selection(rows: seq<Row>, needs: Needs, topK: int): seq<nat> {
    if !needs.k && !needs.p then Head(Positions(|rows|), topK)
    else
      var f := Forced(rows, needs);
      Head(f + Fill(|rows|, ToSet(f), topK - |f|, 0), topK)
  }

  // ---------------------------------------------------------------------
  // the imperative selection

  /**
   * `pick_of_type`: append the first unused row of type `t` to the picks and
   * mark it used; report whether there was one. The closure's captured
   * `picks` and `used` are passed in and handed back.
   */
  method PickOfType(rows: seq<Row>, t: string, picks: seq<nat>, used: set<nat>)
    returns (picks': seq<nat>, used': set<nat>, found: bool)
    ensures found == FirstOfType(rows, t, used, 0).Some?
    ensures found ==> (picks' == picks + [FirstOfType(rows, t, used, 0).value]
                       && used' == used + {FirstOfType(rows, t, used, 0).value})
    ensures !found ==> picks' == picks && used' == used
  {
    picks', used' := picks, used;
    for i := 0 to |rows|
      invariant FirstOfType(rows, t, used, 0) == FirstOfType(rows, t, used, i)
    {
      if i in used {
        continue;
      }
      if rows[i].item.typeHint == Some(t) {
        picks', used' := picks + [i], used + {i};
        return picks', used', true;
      }
    }
    found := false;
  }

  /** The forced picks of `diversify_by_type`: one K row, then one P row, as needed. */
  method PickForced(rows: seq<Row>, needs: Needs) returns (picks: seq<nat>, used: set<nat>)
    ensures picks == Forced(rows, needs) && used == ToSet(picks)
  {
    picks := [];
    used := {};
    var found: bool;
    if needs.k {
      picks, used, found := PickOfType(rows, "K", picks, used);
    }
    if needs.p {
      picks, used, found := PickOfType(rows, "P", picks, used);
    }
  }

  /** `diversify_by_type` over the frame sorted by descending score. */
  method DiversifyByType(rows: seq<Row>, query: string, topK: int) returns (picks: seq<nat>)
    ensures picks == Selection(rows, DetectQueryNeeds(query), topK)
  {
    var needs := DetectQueryNeeds(query);
    if !(needs.k || needs.p) {
      return Head(Positions(|rows|), topK);
    }
    var used: set<nat>;
    picks, used := PickForced(rows, needs);
    ghost var forced := picks;
    ghost var n := |rows|;
    ghost var added: seq<nat> := [];
    for i := 0 to |rows|
      invariant picks == forced + added
      invariant Fill(n, used, topK - |forced|, 0) == added + Fill(n, used, topK - |picks|, i)
    {
      if |picks| >= topK {
        break;
      }
      if i in used {
        continue;
      }
      ghost var rest := Fill(n, used, topK - |picks| - 1, i + 1);
      assert Fill(n, used, topK - |picks|, i) == [i] + rest;
      assert added + ([i] + rest) == (added + [i]) + rest;
      picks := picks + [i];
      added := added + [i];
    }
    picks := Head(picks, topK);
  }

  // ---------------------------------------------------------------------
  // properties of the selection

  lemma {:induction false} FreeNoneUsed(n: nat, from: nat)
    requires from <= n
    ensures Free(n, {}, from) == n - from
    decreases n - from
  {
    if from < n {
      FreeNoneUsed(n, from + 1);
    }
  }

  lemma {:induction false} FreeOneMoreUsed(n: nat, used: set<nat>, x: nat, from: nat)
    requires x !in used
    ensures Free(n, used + {x}, from) == Free(n, used, from) - (if from <= x < n then 1 else 0)
    decreases n - from
  {
    if from < n {
      FreeOneMoreUsed(n, used, x, from + 1);
    }
  }

  /** At most one K pick and one P pick, distinct positions of the frame. */
  lemma ForcedFacts(rows: seq<Row>, needs: Needs)
    ensures var f := Forced(rows, needs);
      && |f| <= 2
      && (forall j :: 0 <= j < |f| ==> f[j] < |rows|)
      && (|f| == 2 ==> f[0] != f[1])
      && Free(|rows|, ToSet(f), 0) == |rows| - |f|
  {
    var f := Forced(rows, needs);
    var n := |rows|;
    FreeNoneUsed(n, 0);
    if |f| == 0 {
      assert ToSet(f) == {};
    } else if |f| == 1 {
      assert ToSet(f) == {} + {f[0]};
      FreeOneMoreUsed(n, {}, f[0], 0);
    } else if |f| == 2 {
      var a, b := f[0], f[1];
      assert ToSet([a]) == {a};
      assert b == FirstOfType(rows, "P", {a}, 0).value;
      assert ToSet(f) == {a, b};
      assert a < n && b < n && a != b;
      FreeOneMoreUsed(n, {}, a, 0);
      assert {} + {a} == {a};
      assert Free(n, {a}, 0) == n - 1;
      FreeOneMoreUsed(n, {a}, b, 0);
      assert {a} + {b} == {a, b};
      assert Free(n, {a, b}, 0) == n - 2;
    }
  }

  /** For a non-negative `top_k` the result has min(top_k, n) rows. */
  lemma SelectionLength(rows: seq<Row>, needs: Needs, topK: int)
    requires topK >= 0
    ensures |Selection(rows, needs, topK)| == Min(topK, |rows|)
  {
    if needs.k || needs.p {
      var f := Forced(rows, needs);
      ForcedFacts(rows, needs);
      FillFacts(|rows|, ToSet(f), topK - |f|, 0);
    }
  }

  /** Every picked position is a row of the frame, and no row is picked twice. */
  lemma SelectionDistinct(rows: seq<Row>, needs: Needs, topK: int)
    ensures var sel := Selection(rows, needs, topK);
      && (forall i :: 0 <= i < |sel| ==> sel[i] < |rows|)
      && (forall i, j :: 0 <= i < j < |sel| ==> sel[i] != sel[j])
  {
    if needs.k || needs.p {
      var f := Forced(rows, needs);
      ForcedFacts(rows, needs);
      var fill := Fill(|rows|, ToSet(f), topK - |f|, 0);
      FillFacts(|rows|, ToSet(f), topK - |f|, 0);
      var all := f + fill;
      forall i, j | 0 <= i < j < |all|
        ensures all[i] != all[j]
      {
        if j >= |f| && i < |f| {
          assert all[i] in ToSet(f);
        }
      }
    }
  }

  /**
   * When K is needed and the frame has a K row, a non-empty result starts
   * with the earliest K row of the frame.
   */
  lemma SelectionFirstTechnical(rows: seq<Row>, needs: Needs, topK: int, k: nat)
    requires needs.k && topK >= 1 && IsType(rows, k, "K")
    ensures var sel := Selection(rows, needs, topK);
      && |sel| >= 1 && IsType(rows, sel[0], "K") && sel[0] <= k
      && forall j :: 0 <= j < sel[0] ==> !IsType(rows, j, "K")
  {
    var f := Forced(rows, needs);
    assert f[0] == FirstOfType(rows, "K", {}, 0).value;
  }

  /**
   * When P is needed and the frame has a P row, the earliest P row comes
   * right after the forced K pick (first if there is none), unless `top_k`
   * leaves no room for it, in which case no P row is forced into the result.
   */
  lemma SelectionBehaviouralNext(rows: seq<Row>, needs: Needs, topK: int, p: nat)
    requires needs.p && IsType(rows, p, "P")
    ensures var sel := Selection(rows, needs, topK);
      var slot := if needs.k && FirstOfType(rows, "K", {}, 0).Some? then 1 else 0;
      && (topK > slot ==>
            |sel| > slot && IsType(rows, sel[slot], "P") && sel[slot] <= p
            && forall j :: 0 <= j < sel[slot] ==> !IsType(rows, j, "P"))
      && (0 <= topK <= slot ==> forall i :: 0 <= i < |sel| ==> !IsType(rows, sel[i], "P"))
  {
    var ks := if needs.k then AsSeq(FirstOfType(rows, "K", {}, 0)) else [];
    var f := Forced(rows, needs);
    var sel := Selection(rows, needs, topK);
    assert forall j :: j in ks ==> IsType(rows, j, "K");
    assert forall j :: IsType(rows, j, "P") ==> j !in ToSet(ks);
    var pp := FirstOfType(rows, "P", ToSet(ks), 0);
    assert pp.Some?;
    assert f == ks + [pp.value];
    if 0 <= topK <= |ks| {
      SelectionLength(rows, needs, topK);
      assert sel == f[..topK];
    }
  }

  /** A free position missing from a prefix of an increasing fill lies beyond that prefix. */
  lemma PrefixBelow(fill: seq<nat>, m: nat, q: nat)
    requires m <= |fill|
    requires forall j, k :: 0 <= j < k < |fill| ==> fill[j] < fill[k]
    requires q in fill || forall j :: 0 <= j < |fill| ==> fill[j] < q
    requires q !in fill[..m]
    ensures forall a :: 0 <= a < m ==> fill[a] < q
  {
    if q in fill {
      var k :| 0 <= k < |fill| && fill[k] == q;
    }
  }

  /** The first m positions are exactly the numbers below m. */
  lemma PositionsPrefix(n: nat, m: nat)
    requires m <= n
    ensures forall q :: 0 <= q < m ==> q in Positions(n)[..m]
  {
    forall q | 0 <= q < m
      ensures q in Positions(n)[..m]
    {
      assert Positions(n)[..m][q] == q;
    }
  }

  /** Rows after the forced picks keep their frame order and are the earliest unpicked rows. */
  lemma SelectionRestInOrder(rows: seq<Row>, needs: Needs, topK: int)
    ensures var sel := Selection(rows, needs, topK);
      var forced := if needs.k || needs.p then Forced(rows, needs) else [];
      && (forall a, b :: |forced| <= a < b < |sel| ==> sel[a] < sel[b])
      && (forall q :: 0 <= q < |rows| && q !in sel ==> forall a :: |forced| <= a < |sel| ==> sel[a] < q)
  {
    var sel := Selection(rows, needs, topK);
    if !needs.k && !needs.p {
      PositionsPrefix(|rows|, |sel|);
    } else {
      var f := Forced(rows, needs);
      var fill := Fill(|rows|, ToSet(f), topK - |f|, 0);
      FillFacts(|rows|, ToSet(f), topK - |f|, 0);
      if |sel| > |f| {
        RestOfForced(|rows|, f, fill, sel);
      }
    }
  }

  lemma RestOfForced(n: nat, f: seq<nat>, fill: seq<nat>, sel: seq<nat>)
    requires |f| < |sel| <= |f| + |fill| && sel == (f + fill)[..|sel|]
    requires forall j, k :: 0 <= j < k < |fill| ==> fill[j] < fill[k]
    requires forall j :: 0 <= j < |fill| ==> fill[j] !in ToSet(f)
    requires forall q :: 0 <= q < n && q !in ToSet(f) && q !in fill ==> forall j :: 0 <= j < |fill| ==> fill[j] < q
    ensures forall a, b :: |f| <= a < b < |sel| ==> sel[a] < sel[b]
    ensures forall q :: 0 <= q < n && q !in sel ==> forall a :: |f| <= a < |sel| ==> sel[a] < q
  {
    var m := |sel| - |f|;
    assert sel == f + fill[..m];
    assert forall a :: |f| <= a < |sel| ==> sel[a] == fill[a - |f|];
    forall q | 0 <= q < n && q !in sel
      ensures forall a :: |f| <= a < |sel| ==> sel[a] < q
    {
      assert q !in fill[..m];
      PrefixBelow(fill, m, q);
    }
  }

  /** Without needs the result is the first `top_k` rows of the frame. */
  lemma SelectionPlain(rows: seq<Row>, needs: Needs, topK: int)
    requires !needs.k && !needs.p && topK >= 0
    ensures var sel := Selection(rows, needs, topK);
      |sel| == Min(topK, |rows|) && forall i :: 0 <= i < |sel| ==> sel[i] == i
  {
  }

  // ---------------------------------------------------------------------
  // the recommendation pipeline

  /** `max(30, top_k)`: how many neighbours the vector index is asked for. */
  function RetrieveCount(topK: int): (n: int)
    ensures n >= 30 && n >= topK && (n == 30 || n == topK)
  {
    if topK > 30 then topK else 30
  }

  /** The index answers with positions of the catalog. */
  predicate ValidHits(size: int, idxs: seq<int>) {
    forall j :: 0 <= j < |idxs| ==> 0 <= idxs[j] < size
  }

  /** `df.iloc[idxs]`: the catalog rows the index returned, in the index's order. */
  function Candidates(catalog: seq<Item>, idxs: seq<int>): (c: seq<Item>)
    requires ValidHits(|catalog|, idxs)
    ensures |c| == |idxs|
  {
    seq(|idxs|, j requires 0 <= j < |idxs| => catalog[idxs[j]])
  }

  /** `order` lists every candidate position exactly once. */
  predicate IsPermutation(order: seq<nat>, n: nat) {
    && |order| == n
    && (forall p :: 0 <= p < |order| ==> order[p] < n)
    && (forall a, b :: 0 <= a < b < |order| ==> order[a] != order[b])
    && (forall j :: 0 <= j < n ==> j in order)
  }

  /** `sort_values("score", ascending=False)`: reading candidates in `order` gives non-increasing scores. */
  predicate SortsDescending(order: seq<nat>, scores: seq<real>) {
    forall a, b :: 0 <= a < b < |order| && order[a] < |scores| && order[b] < |scores| ==>
      scores[order[a]] >= scores[order[b]]
  }

  /** The scored candidate frame in sorted order. */
  function Frame(cands: seq<Item>, scores: seq<real>, order: seq<nat>): (rows: seq<Row>)
    requires |scores| == |cands| && forall p :: 0 <= p < |order| ==> order[p] < |cands|
    ensures |rows| == |order|
  {
    seq(|order|, p requires 0 <= p < |order| => Row(cands[order[p]], scores[order[p]]))
  }

  /** One output entry: `{"assessment_name", "url", "score"}` of a row. */
  function Entry(r: Row): Recommendation {
    Recommendation(r.item.name, r.item.url, r.score)
  }

  /** The entries of the selected rows, in selection order. */
  function Output(rows: seq<Row>, sel: seq<nat>): (out: seq<Recommendation>)
    requires forall i :: 0 <= i < |sel| ==> sel[i] < |rows|
    ensures |out| == |sel|
  {
    seq(|sel|, i requires 0 <= i < |sel| => Entry(rows[sel[i]]))
  }

  /** What `Recommender.recommend` returns for the index's answer `sims`, `idxs` and the sort's `order`. */
  function Pipeline(catalog: seq<Item>, query: string, topK: int, sims: seq<real>, idxs: seq<int>, order: seq<nat>)
    : seq<Recommendation>
    requires |sims| == |idxs| && ValidHits(|catalog|, idxs) && IsPermutation(order, |idxs|)
  {
    var cands := Candidates(catalog, idxs);
    var rows := Frame(cands, Scores(query, cands, sims), order);
    var needs := DetectQueryNeeds(query);
    SelectionDistinct(rows, needs, topK);
    Output(rows, Selection(rows, needs, topK))
  }

  /** The candidate position each returned entry comes from. */
  function Sources(catalog: seq<Item>, query: string, topK: int, sims: seq<real>, idxs: seq<int>, order: seq<nat>)
    : seq<nat>
    requires |sims| == |idxs| && ValidHits(|catalog|, idxs) && IsPermutation(order, |idxs|)
  {
    var cands := Candidates(catalog, idxs);
    var rows := Frame(cands, Scores(query, cands, sims), order);
    var sel := Selection(rows, DetectQueryNeeds(query), topK);
    SelectionDistinct(rows, DetectQueryNeeds(query), topK);
    seq(|sel|, i requires 0 <= i < |sel| => order[sel[i]])
  }

  /** The number of forced picks that open the selection: 0 for a plain query, at most 2. */
  function ForcedCount(catalog: seq<Item>, query: string, sims: seq<real>, idxs: seq<int>, order: seq<nat>)
    : (f: nat)
    requires |sims| == |idxs| && ValidHits(|catalog|, idxs) && IsPermutation(order, |idxs|)
    ensures f <= 2
    ensures !DetectQueryNeeds(query).k && !DetectQueryNeeds(query).p ==> f == 0
  {
    var cands := Candidates(catalog, idxs);
    var rows := Frame(cands, Scores(query, cands, sims), order);
    var needs := DetectQueryNeeds(query);
    ForcedFacts(rows, needs);
    if needs.k || needs.p then |Forced(rows, needs)| else 0
  }

  /** The row of the sorted frame that holds candidate `m`. */
  lemma RowOf(order: seq<nat>, n: nat, m: nat) returns (p: nat)
    requires IsPermutation(order, n) && m < n
    ensures p < n && order[p] == m
  {
    assert m in order;
    p :| 0 <= p < |order| && order[p] == m;
  }

  /**
   * Each entry is the name, URL and blended score of the candidate it comes
   * from, and no candidate is returned twice.
   */
  lemma PipelineEntries(catalog: seq<Item>, query: string, topK: int, sims: seq<real>, idxs: seq<int>, order: seq<nat>)
    requires |sims| == |idxs| && ValidHits(|catalog|, idxs) && IsPermutation(order, |idxs|)
    ensures var out := Pipeline(catalog, query, topK, sims, idxs, order);
      var src := Sources(catalog, query, topK, sims, idxs, order);
      var cands := Candidates(catalog, idxs);
      var scores := Scores(query, cands, sims);
      && |src| == |out|
      && (forall i :: 0 <= i < |src| ==>
            src[i] < |idxs| && out[i] == Recommendation(cands[src[i]].name, cands[src[i]].url, scores[src[i]]))
      && (forall i, j :: 0 <= i < j < |src| ==> src[i] != src[j])
  {
    var cands := Candidates(catalog, idxs);
    var rows := Frame(cands, Scores(query, cands, sims), order);
    SelectionDistinct(rows, DetectQueryNeeds(query), topK);
  }

  /** The selected rows of a sorted frame, read back as candidate positions. */
  function Picked(order: seq<nat>, sel: seq<nat>): seq<nat>
    requires forall i :: 0 <= i < |sel| ==> sel[i] < |order|
  {
    seq(|sel|, i requires 0 <= i < |sel| => order[sel[i]])
  }

  /** `PipelineByScore` for any scores the sort ordered. */
  lemma FrameByScore(cands: seq<Item>, scores: seq<real>, order: seq<nat>, needs: Needs, topK: int)
    requires |scores| == |cands| && IsPermutation(order, |cands|) && SortsDescending(order, scores)
    ensures var rows := Frame(cands, scores, order);
      var sel := Selection(rows, needs, topK);
      var f := if needs.k || needs.p then |Forced(rows, needs)| else 0;
      && (forall i :: 0 <= i < |sel| ==> sel[i] < |order|)
      && (forall i, j :: f <= i < j < |sel| ==> rows[sel[i]].score >= rows[sel[j]].score)
      && (forall m :: 0 <= m < |cands| && m !in Picked(order, sel) ==>
            forall i :: f <= i < |sel| ==> scores[m] <= rows[sel[i]].score)
  {
    var rows := Frame(cands, scores, order);
    var sel := Selection(rows, needs, topK);
    var f := if needs.k || needs.p then |Forced(rows, needs)| else 0;
    SelectionDistinct(rows, needs, topK);
    SelectionRestInOrder(rows, needs, topK);
    var src := Picked(order, sel);
    forall m | 0 <= m < |cands| && m !in src
      ensures forall i :: f <= i < |sel| ==> scores[m] <= rows[sel[i]].score
    {
      var p := RowOf(order, |cands|, m);
      assert p !in sel by {
        assert forall i :: 0 <= i < |sel| ==> src[i] == order[sel[i]];
      }
    }
  }

  /**
   * After the forced picks the entries come in non-increasing score order,
   * and no candidate left out scores above any of them; for a query with no
   * category need that is the whole list, the best `top_k` by score.
   */
  lemma PipelineByScore(catalog: seq<Item>, query: string, topK: int, sims: seq<real>, idxs: seq<int>, order: seq<nat>)
    requires |sims| == |idxs| && ValidHits(|catalog|, idxs) && IsPermutation(order, |idxs|)
    requires SortsDescending(order, Scores(query, Candidates(catalog, idxs), sims))
    ensures var out := Pipeline(catalog, query, topK, sims, idxs, order);
      var src := Sources(catalog, query, topK, sims, idxs, order);
      var scores := Scores(query, Candidates(catalog, idxs), sims);
      var f := ForcedCount(catalog, query, sims, idxs, order);
      && (forall i, j :: f <= i < j < |out| ==> out[i].score >= out[j].score)
      && (forall m :: 0 <= m < |idxs| && m !in src ==> forall i :: f <= i < |out| ==> scores[m] <= out[i].score)
  {
    var cands := Candidates(catalog, idxs);
    var scores := Scores(query, cands, sims);
    var needs := DetectQueryNeeds(query);
    FrameByScore(cands, scores, order, needs, topK);
    var rows := Frame(cands, scores, order);
    var sel := Selection(rows, needs, topK);
    assert Sources(catalog, query, topK, sims, idxs, order) == Picked(order, sel);
  }

  /** `PipelineFirstTechnical` for any scores the sort ordered. */
  lemma FrameFirstTechnical(cands: seq<Item>, scores: seq<real>, order: seq<nat>, needs: Needs, topK: int, m: nat)
    requires |scores| == |cands| && IsPermutation(order, |cands|) && SortsDescending(order, scores)
    requires needs.k && topK >= 1 && m < |cands| && cands[m].typeHint == Some("K")
    ensures var rows := Frame(cands, scores, order);
      var sel := Selection(rows, needs, topK);
      && |sel| >= 1 && sel[0] < |order|
      && cands[order[sel[0]]].typeHint == Some("K")
      && rows[sel[0]].score >= scores[m]
  {
    var rows := Frame(cands, scores, order);
    var p := RowOf(order, |cands|, m);
    assert IsType(rows, p, "K");
    SelectionFirstTechnical(rows, needs, topK, p);
  }

  /**
   * For a query that needs knowledge and skills, when any candidate is of
   * type K the first entry is a K candidate, and no K candidate scores above it.
   */
  lemma PipelineFirstTechnical(catalog: seq<Item>, query: string, topK: int, sims: seq<real>, idxs: seq<int>,
                               order: seq<nat>, m: nat)
    requires |sims| == |idxs| && ValidHits(|catalog|, idxs) && IsPermutation(order, |idxs|)
    requires SortsDescending(order, Scores(query, Candidates(catalog, idxs), sims))
    requires DetectQueryNeeds(query).k && topK >= 1
    requires m < |idxs| && Candidates(catalog, idxs)[m].typeHint == Some("K")
    ensures var out := Pipeline(catalog, query, topK, sims, idxs, order);
      var src := Sources(catalog, query, topK, sims, idxs, order);
      var cands := Candidates(catalog, idxs);
      && |src| == |out| >= 1 && src[0] < |idxs|
      && cands[src[0]].typeHint == Some("K")
      && out[0].score >= Scores(query, cands, sims)[m]
  {
    var cands := Candidates(catalog, idxs);
    var scores := Scores(query, cands, sims);
    var needs := DetectQueryNeeds(query);
    FrameFirstTechnical(cands, scores, order, needs, topK, m);
  }

  /** Some candidate carries the type hint `t`. */
  predicate HasType(cands: seq<Item>, t: string) {
    exists m :: 0 <= m < |cands| && cands[m].typeHint == Some(t)
  }

  /** Where the P pick goes: after the K pick when there is one, else first. */
  function BehaviouralSlot(needs: Needs, cands: seq<Item>): nat {
    if needs.k && HasType(cands, "K") then 1 else 0
  }

  /** `PipelineBehaviouralNext` for any scores the sort ordered. */
  lemma FrameBehaviouralNext(cands: seq<Item>, scores: seq<real>, order: seq<nat>, needs: Needs, topK: int, m: nat)
    requires |scores| == |cands| && IsPermutation(order, |cands|) && SortsDescending(order, scores)
    requires needs.p && m < |cands| && cands[m].typeHint == Some("P")
    ensures var rows := Frame(cands, scores, order);
      var sel := Selection(rows, needs, topK);
      var slot := BehaviouralSlot(needs, cands);
      && (forall i :: 0 <= i < |sel| ==> sel[i] < |order|)
      && (topK > slot ==>
            |sel| > slot && cands[order[sel[slot]]].typeHint == Some("P") && rows[sel[slot]].score >= scores[m])
      && (0 <= topK <= slot ==> forall i :: 0 <= i < |sel| ==> cands[order[sel[i]]].typeHint != Some("P"))
  {
    var rows := Frame(cands, scores, order);
    var p := RowOf(order, |cands|, m);
    assert IsType(rows, p, "P");
    var first := FirstOfType(rows, "K", {}, 0);
    if HasType(cands, "K") {
      var k :| 0 <= k < |cands| && cands[k].typeHint == Some("K");
      var q := RowOf(order, |cands|, k);
      assert IsType(rows, q, "K");
    }
    if first.Some? {
      assert IsType(rows, first.value, "K");
    }
    SelectionBehaviouralNext(rows, needs, topK, p);
    SelectionDistinct(rows, needs, topK);
  }

  /**
   * For a query that needs personality and behaviour, when any candidate is
   * of type P the entry right after the K pick (the first entry when there is
   * none) is a P candidate, and no P candidate scores above it.
   */
  lemma PipelineBehaviouralNext(catalog: seq<Item>, query: string, topK: int, sims: seq<real>, idxs: seq<int>,
                                order: seq<nat>, m: nat)
    requires |sims| == |idxs| && ValidHits(|catalog|, idxs) && IsPermutation(order, |idxs|)
    requires SortsDescending(order, Scores(query, Candidates(catalog, idxs), sims))
    requires DetectQueryNeeds(query).p && topK > BehaviouralSlot(DetectQueryNeeds(query), Candidates(catalog, idxs))
    requires m < |idxs| && Candidates(catalog, idxs)[m].typeHint == Some("P")
    ensures var out := Pipeline(catalog, query, topK, sims, idxs, order);
      var src := Sources(catalog, query, topK, sims, idxs, order);
      var cands := Candidates(catalog, idxs);
      var slot := BehaviouralSlot(DetectQueryNeeds(query), cands);
      && |src| == |out| > slot && src[slot] < |idxs|
      && cands[src[slot]].typeHint == Some("P")
      && out[slot].score >= Scores(query, cands, sims)[m]
  {
    var cands := Candidates(catalog, idxs);
    var scores := Scores(query, cands, sims);
    var needs := DetectQueryNeeds(query);
    FrameBehaviouralNext(cands, scores, order, needs, topK, m);
    var rows := Frame(cands, scores, order);
    var sel := Selection(rows, needs, topK);
    var out := Pipeline(catalog, query, topK, sims, idxs, order);
    assert Sources(catalog, query, topK, sims, idxs, order) == Picked(order, sel);
    assert out == Output(rows, sel);
    var slot := BehaviouralSlot(needs, cands);
    assert |sel| > slot;
    assert Picked(order, sel)[slot] == order[sel[slot]];
    assert out[slot].score == rows[sel[slot]].score;
  }

  /**
   * When `top_k` leaves no room after the K pick, the P pick is cut off and
   * no P candidate is forced into the list.
   */
  lemma PipelineBehaviouralCutOff(catalog: seq<Item>, query: string, topK: int, sims: seq<real>, idxs: seq<int>,
                                  order: seq<nat>, m: nat)
    requires |sims| == |idxs| && ValidHits(|catalog|, idxs) && IsPermutation(order, |idxs|)
    requires SortsDescending(order, Scores(query, Candidates(catalog, idxs), sims))
    requires DetectQueryNeeds(query).p && 0 <= topK <= BehaviouralSlot(DetectQueryNeeds(query), Candidates(catalog, idxs))
    requires m < |idxs| && Candidates(catalog, idxs)[m].typeHint == Some("P")
    ensures var src := Sources(catalog, query, topK, sims, idxs, order);
      var cands := Candidates(catalog, idxs);
      forall i :: 0 <= i < |src| ==> src[i] < |idxs| && cands[src[i]].typeHint != Some("P")
  {
    var cands := Candidates(catalog, idxs);
    var scores := Scores(query, cands, sims);
    var needs := DetectQueryNeeds(query);
    FrameBehaviouralNext(cands, scores, order, needs, topK, m);
    var rows := Frame(cands, scores, order);
    var sel := Selection(rows, needs, topK);
    var src := Picked(order, sel);
    assert Sources(catalog, query, topK, sims, idxs, order) == src;
    forall i | 0 <= i < |src|
      ensures cands[src[i]].typeHint != Some("P")
    {
      assert src[i] == order[sel[i]];
    }
  }

  /** The recommender: the catalog it loaded; the encoder and the vector index are outside the model. */
  class Recommender {
    const catalog: seq<Item>

    constructor(catalog: seq<Item>)
      ensures this.catalog == catalog
    {
      this.catalog := catalog;
    }

    /**
     * `recommend`: rescore the index's candidates, sort them by score
     * (`order` is the sort's answer), balance the categories and return one
     * entry per pick. With the `max(30, top_k)` neighbours the index is asked
     * for, a non-negative `top_k` yields exactly `top_k` entries.
     */
    method Recommend(query: string, topK: int, sims: seq<real>, idxs: seq<int>, order: seq<nat>)
      returns (out: seq<Recommendation>)
      requires |sims| == |idxs| == RetrieveCount(topK)
      requires ValidHits(|catalog|, idxs)
      requires IsPermutation(order, |idxs|)
      requires SortsDescending(order, Scores(query, Candidates(catalog, idxs), sims))
      ensures out == Pipeline(catalog, query, topK, sims, idxs, order)
      ensures topK >= 0 ==> |out| == topK
    {
      var cand := Candidates(catalog, idxs);
      var scores := Rerank.Rerank(query, cand, sims);
      var rows := Frame(cand, scores, order);
      var picks := DiversifyByType(rows, query, topK);
      SelectionDistinct(rows, DetectQueryNeeds(query), topK);
      out := seq(|picks|, i requires 0 <= i < |picks| => Entry(rows[picks[i]]));
      if topK >= 0 {
        SelectionLength(rows, DetectQueryNeeds(query), topK);
      }
    }
  }
}
