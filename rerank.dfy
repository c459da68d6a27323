/**
 * Hybrid rescoring of retrieved candidates (src/rerank.py): which of the
 * K (knowledge and skills) and P (personality and behaviour) categories a
 * query asks for, the per-candidate type bonus, the capped keyword overlap
 * and the fixed linear blend with the dense similarity.
 */
module Rerank {
  import opened Wrappers
  import opened Text
  import opened Catalog

  /** Terms whose presence in the query asks for technical (K) items. */
  const TechnicalTerms: seq<string> := [
    "java", "python", "sql", "c++", "ml", "nlp", "analytics", "coding", "technical",
    "engineer", "developer", "aptitude", "cognitive", "data", "javascript"
  ]

  /** Terms whose presence in the query asks for behavioural (P) items. */
  const BehaviouralTerms: seq<string> := [
    "personality", "behavior", "behaviour", "teamwork", "collaboration", "communication",
    "stakeholder", "leadership", "work style", "sjt", "situational"
  ]

  datatype Needs = Needs(k: bool, p: bool)

  /** `detect_query_needs`: substring tests of both term lists against the lowered query. */
  function DetectQueryNeeds(q: string): Needs {
    var low := Lower(q);
    Needs(AnyIn(TechnicalTerms, low), AnyIn(BehaviouralTerms, low))
  }

  /** The needs depend on the query only through its lower-case form. */
  lemma NeedsOfLowered(q: string)
    ensures DetectQueryNeeds(Lower(q)) == DetectQueryNeeds(q)
  {
    LowerIdempotent(q);
  }

  /** The match is by substring, not by word: "html" asks for K because of "ml". */
  lemma HtmlNeedsTechnical()
    ensures DetectQueryNeeds("HTML").k
  {
    var low := Lower("HTML");
    assert low == "html";
    assert OccursAt(low, "ml", 2);
    assert "ml" in TechnicalTerms;
  }

  /** "database" asks for K because it contains "data". */
  lemma DatabaseNeedsTechnical()
    ensures DetectQueryNeeds("Database administrator").k
  {
    var low := Lower("Database administrator");
    assert low[..4] == "data";
    assert OccursAt(low, "data", 0);
    assert "data" in TechnicalTerms;
  }

  // ---------------------------------------------------------------------
  // type balance bonus

  /**
   * One iteration of the bonus loop: 0.06 for a K row when K is needed,
   * 0.06 for a P row when P is needed. A hint is one string, so at most
   * one of the two additions applies.
   */
  function TypeBonus(needs: Needs, hint: string): (b: real)
    ensures b == 0.0 || b == 0.06
    ensures b == 0.06 <==> (needs.k && hint == "K") || (needs.p && hint == "P")
  {
    var afterK := if needs.k && hint == "K" then 0.06 else 0.0;
    if needs.p && hint == "P" then afterK + 0.06 else afterK
  }

  /** The loop over `df_cand["type_hint"].fillna("")` that builds `type_bonus`. */
  method TypeBonuses(needs: Needs, cands: seq<Item>) returns (bonus: seq<real>)
    ensures |bonus| == |cands|
    ensures forall i :: 0 <= i < |cands| ==> bonus[i] == TypeBonus(needs, FillEmpty(cands[i].typeHint))
    ensures forall i :: 0 <= i < |cands| ==> bonus[i] == 0.0 || bonus[i] == 0.06
  {
    bonus := [];
    for i := 0 to |cands|
      invariant |bonus| == i
      invariant forall j :: 0 <= j < i ==> bonus[j] == TypeBonus(needs, FillEmpty(cands[j].typeHint))
    {
      var t := FillEmpty(cands[i].typeHint);
      var b := 0.0;
      if needs.k && t == "K" {
        b := b + 0.06;
      }
      if needs.p && t == "P" {
        b := b + 0.06;
      }
      bonus := bonus + [b];
    }
  }

  // ---------------------------------------------------------------------
  // keyword overlap

  /** The words of length greater than 2, in order, duplicates kept. */
  function LongWords(ws: seq<string>): (r: seq<string>)
    ensures forall w :: w in r ==> |w| > 2 && w in ws
  {
    if ws == [] then []
    else if |ws[0]| > 2 then [ws[0]] + LongWords(ws[1..])
    else LongWords(ws[1..])
  }

  /** Every word longer than 2 is kept as often as it occurs; no shorter word is kept. */
  lemma {:induction false} LongWordsCount(ws: seq<string>, w: string)
    ensures multiset(LongWords(ws))[w] == if |w| > 2 then multiset(ws)[w] else 0
  {
    if ws != [] {
      LongWordsCount(ws[1..], w);
      assert ws == [ws[0]] + ws[1..];
    }
  }

  /** `q_terms`: the whitespace-split words of the lowered query longer than 2. */
  function QueryTerms(query: string): seq<string> {
    LongWords(Words(Lower(query)))
  }

  /** Query terms are lower-case words without whitespace, longer than 2 characters. */
  lemma QueryTermsShape(query: string)
    ensures forall t :: t in QueryTerms(query) ==> |t| > 2 && NoSpace(t) && Lower(t) == t
  {
    var low := Lower(query);
    WordsAreWords(low);
    WordsAreLower(low);
  }

  lemma {:induction false} WordsAreLower(s: string)
    requires Lower(s) == s
    ensures forall w :: w in Words(s) ==> Lower(w) == w
    decreases |s|
  {
    if s == [] {
    } else if IsSpace(s[0]) {
      assert Lower(s[1..]) == s[1..];
      WordsAreLower(s[1..]);
    } else {
      var n := WordEnd(s, 0);
      assert Lower(s[..n]) == s[..n];
      assert Lower(s[n..]) == s[n..];
      WordsAreLower(s[n..]);
    }
  }

  /**
   * A lower-case query written as words separated by single spaces yields
   * exactly its words longer than 2, in order and with repetitions:
   * punctuation stays attached to the word it touches.
   */
  lemma QueryTermsOfJoin(ws: seq<string>)
    requires forall w :: w in ws ==> |w| > 0 && NoSpace(w)
    requires Lower(Join(ws)) == Join(ws)
    ensures QueryTerms(Join(ws)) == LongWords(ws)
  {
    WordsJoin(ws);
  }

  /** The text a candidate is matched against: `str(name) + " " + str(desc)`, lowered. */
  function ItemText(it: Item): string {
    Lower(it.name + " " + CellText(it.desc))
  }

  /** `sum(1 for w in q_terms if w in text)`. */
  function Hits(terms: seq<string>, text: string): (h: nat)
    ensures h <= |terms|
  {
    if terms == [] then 0
    else (if Contains(text, terms[0]) then 1 else 0) + Hits(terms[1..], text)
  }

  /** No hit exactly when no term occurs in the text. */
  lemma {:induction false} HitsZero(terms: seq<string>, text: string)
    ensures Hits(terms, text) == 0 <==> forall i :: 0 <= i < |terms| ==> !Contains(text, terms[i])
  {
    if terms != [] {
      HitsZero(terms[1..], text);
      assert forall i :: 1 <= i < |terms| ==> terms[i] == terms[1..][i - 1];
    }
  }

  /** Each term that occurs is one hit: two occurring terms at distinct positions give at least 2. */
  lemma {:induction false} HitsAtLeastTwo(terms: seq<string>, text: string, i: nat, j: nat)
    requires i < j < |terms|
    requires Contains(text, terms[i]) && Contains(text, terms[j])
    ensures Hits(terms, text) >= 2
  {
    if i == 0 {
      HitsZero(terms[1..], text);
      assert terms[1..][j - 1] == terms[j];
    } else {
      HitsAtLeastTwo(terms[1..], text, i - 1, j - 1);
    }
  }

  /** `min(hits / 10.0, 0.2)`. */
  function Overlap(hits: nat): (o: real)
    ensures 0.0 <= o <= 0.2
    ensures hits == 0 ==> o == 0.0
    ensures hits == 1 ==> o == 0.1
    ensures hits >= 2 ==> o == 0.2
  {
    var x := hits as real / 10.0;
    if 0.2 < x then 0.2 else x
  }

  /** The loop over the candidate rows that builds `kw_overlap` from the query terms. */
  method KeywordOverlaps(terms: seq<string>, cands: seq<Item>) returns (kw: seq<real>)
    ensures |kw| == |cands|
    ensures forall i :: 0 <= i < |cands| ==> kw[i] == Overlap(Hits(terms, ItemText(cands[i])))
    ensures forall i :: 0 <= i < |cands| ==> 0.0 <= kw[i] <= 0.2
  {
    kw := [];
    for i := 0 to |cands|
      invariant |kw| == i
      invariant forall j :: 0 <= j < i ==> kw[j] == Overlap(Hits(terms, ItemText(cands[j])))
    {
      var text := Lower(cands[i].name + " " + CellText(cands[i].desc));
      var hits := Hits(terms, text);
      var x := hits as real / 10.0;
      kw := kw + [if 0.2 < x then 0.2 else x];
    }
  }

  // ---------------------------------------------------------------------
  // the blend

  /** `0.72*dense + 0.18*kw_overlap + 0.10*type_bonus`. */
  function Blend(dense: real, overlap: real, bonus: real): real {
    0.72 * dense + 0.18 * overlap + 0.10 * bonus
  }

  /** The blend of an overlap in [0, 0.2] and a bonus in [0, 0.06] adds at most 0.042 to the dense part. */
  lemma BlendBounds(dense: real, overlap: real, bonus: real)
    requires 0.0 <= overlap <= 0.2 && 0.0 <= bonus <= 0.06
    ensures 0.72 * dense <= Blend(dense, overlap, bonus) <= 0.72 * dense + 0.036 + 0.006
  {
  }

  /** The blended score of one candidate, given the query's needs and terms. */
  function ScoreWith(needs: Needs, terms: seq<string>, it: Item, dense: real): real {
    Blend(dense, Overlap(Hits(terms, ItemText(it))), TypeBonus(needs, FillEmpty(it.typeHint)))
  }

  /** The blended score of one candidate with dense similarity `dense`. */
  function Score(query: string, it: Item, dense: real): real {
    ScoreWith(DetectQueryNeeds(query), QueryTerms(query), it, dense)
  }

  /** One score per candidate, position by position. */
  function Scores(query: string, cands: seq<Item>, dense: seq<real>): (s: seq<real>)
    requires |dense| == |cands|
    ensures |s| == |cands|
  {
    seq(|cands|, i requires 0 <= i < |cands| => Score(query, cands[i], dense[i]))
  }

  /** Rescoring only adds: at most 0.18 * 0.2 for overlap and 0.10 * 0.06 for the bonus. */
  lemma ScoreBounds(query: string, it: Item, dense: real)
    ensures 0.72 * dense <= Score(query, it, dense) <= 0.72 * dense + 0.036 + 0.006
  {
  }

  /** Two or more query terms found in the text saturate the overlap term at 0.036. */
  lemma ScoreSaturates(query: string, it: Item, dense: real, i: nat, j: nat)
    requires i < j < |QueryTerms(query)|
    requires Contains(ItemText(it), QueryTerms(query)[i]) && Contains(ItemText(it), QueryTerms(query)[j])
    ensures Score(query, it, dense)
         == 0.72 * dense + 0.036 + 0.10 * TypeBonus(DetectQueryNeeds(query), FillEmpty(it.typeHint))
  {
    HitsAtLeastTwo(QueryTerms(query), ItemText(it), i, j);
  }

  /** For candidates with the same text and hint, the blended order is the dense order. */
  lemma ScoreMonotone(query: string, a: Item, b: Item, da: real, db: real)
    requires ItemText(a) == ItemText(b) && FillEmpty(a.typeHint) == FillEmpty(b.typeHint)
    ensures Score(query, a, da) < Score(query, b, db) <==> da < db
    ensures Score(query, a, da) == Score(query, b, db) <==> da == db
  {
  }

  /** `rerank`: the blended score of every candidate, in candidate order. */
  method Rerank(query: string, cands: seq<Item>, dense: seq<real>) returns (final: seq<real>)
    requires |dense| == |cands|
    ensures final == Scores(query, cands, dense)
    ensures forall i :: 0 <= i < |cands| ==> 0.72 * dense[i] <= final[i] <= 0.72 * dense[i] + 0.042
  {
    var needs := DetectQueryNeeds(query);
    var typeBonus := TypeBonuses(needs, cands);
    var terms := LongWords(Words(Lower(query)));
    var kwOverlap := KeywordOverlaps(terms, cands);
    final := seq(|cands|, i requires 0 <= i < |cands| => Blend(dense[i], kwOverlap[i], typeBonus[i]));
    forall i | 0 <= i < |cands|
      ensures final[i] == ScoreWith(needs, terms, cands[i], dense[i])
      ensures 0.72 * dense[i] <= final[i] <= 0.72 * dense[i] + 0.042
    {
      var o := kwOverlap[i];
      var b := typeBonus[i];
      assert o == Overlap(Hits(terms, ItemText(cands[i])));
      assert b == TypeBonus(needs, FillEmpty(cands[i].typeHint));
      assert final[i] == Blend(dense[i], o, b);
      BlendBounds(dense[i], o, b);
    }
  }
}
