/**
 * The retrieval engine (app/services/retrieval_service.py): filter the
 * documents by company and section type with a two-level fallback, score
 * every candidate by word overlap with the query, sort by score descending
 * with a stable sort, and keep the first `top_k`.
 */
module Retrieval {
  import opened Domain
  import opened Tokens

  // ---------------------------------------------------------------------
  // Filtering and fallback
  // ---------------------------------------------------------------------

  predicate MatchesBoth(d: Document, companyId: string, sectionType: string)
  {
    d.companyId == companyId && d.sectionType == sectionType
  }

  /** `[doc for doc in documents if doc.company_id == c and doc.section_type == s]` */
  function FilterExact(docs: seq<Document>, companyId: string, sectionType: string): (r: seq<Document>)
    ensures multiset(r) <= multiset(docs)
    ensures forall d :: d in r <==> d in docs && MatchesBoth(d, companyId, sectionType)
    ensures forall d :: multiset(r)[d] == if MatchesBoth(d, companyId, sectionType) then multiset(docs)[d] else 0
    ensures IsSubsequence(r, docs)
  {
    if docs == [] then []
    else
      assert docs == [docs[0]] + docs[1..];
      var rest := FilterExact(docs[1..], companyId, sectionType);
      if MatchesBoth(docs[0], companyId, sectionType) then
        var r := [docs[0]] + rest;
        assert r[0] == docs[0] && r[1..] == rest;
        r
      else
        rest
  }

  /** `[doc for doc in documents if doc.company_id == c]` */
  function FilterCompany(docs: seq<Document>, companyId: string): (r: seq<Document>)
    ensures multiset(r) <= multiset(docs)
    ensures forall d :: d in r <==> d in docs && d.companyId == companyId
    ensures forall d :: multiset(r)[d] == if d.companyId == companyId then multiset(docs)[d] else 0
    ensures IsSubsequence(r, docs)
  {
    if docs == [] then []
    else
      assert docs == [docs[0]] + docs[1..];
      var rest := FilterCompany(docs[1..], companyId);
      if docs[0].companyId == companyId then
        var r := [docs[0]] + rest;
        assert r[0] == docs[0] && r[1..] == rest;
        r
      else
        rest
  }

  /** The candidate list after the exact filter and its two fallbacks. */
  function Candidates(docs: seq<Document>, companyId: string, sectionType: string): seq<Document>
  {
    var exact := FilterExact(docs, companyId, sectionType);
    if exact != [] then exact
    else
      var sameCompany := FilterCompany(docs, companyId);
      if sameCompany != [] then sameCompany else docs
  }

  /** The fallback order: the exact matches if there are any, otherwise the
      company's documents if there are any, otherwise every document; in each
      case the candidates keep the input order. */
  lemma CandidatesFallback(docs: seq<Document>, companyId: string, sectionType: string)
    ensures var r := Candidates(docs, companyId, sectionType);
      && multiset(r) <= multiset(docs)
      && IsSubsequence(r, docs)
      && ((exists d :: d in docs && MatchesBoth(d, companyId, sectionType)) ==>
            r != [] && r == FilterExact(docs, companyId, sectionType) &&
            forall d :: d in r <==> d in docs && MatchesBoth(d, companyId, sectionType))
      && ((forall d :: d in docs ==> !MatchesBoth(d, companyId, sectionType)) &&
          (exists d :: d in docs && d.companyId == companyId) ==>
            r != [] && r == FilterCompany(docs, companyId) &&
            forall d :: d in r <==> d in docs && d.companyId == companyId)
      && ((forall d :: d in docs ==> d.companyId != companyId) ==> r == docs)
  {
    var exact := FilterExact(docs, companyId, sectionType);
    var sameCompany := FilterCompany(docs, companyId);
    if exact != [] {
      assert exact[0] in exact;
    } else if sameCompany != [] {
      assert sameCompany[0] in sameCompany;
    } else {
      SubsequenceOfSelf(docs);
    }
  }

  // ---------------------------------------------------------------------
  // Scoring
  // ---------------------------------------------------------------------

  /** A `(score, doc)` tuple of `scored_docs`. */
  datatype ScoredDoc = ScoredDoc(score: nat, doc: Document)

  function Score(query: string, d: Document): nat
  {
    WordOverlap(query, d.text)
  }

  /** The list `scored_docs` before sorting: one pair per candidate, in candidate order. */
  function ScoreAll(query: string, cands: seq<Document>): seq<ScoredDoc>
  {
    seq(|cands|, i requires 0 <= i < |cands| => ScoredDoc(Score(query, cands[i]), cands[i]))
  }

  /** The loop that fills `scored_docs`. */
  method ScoreCandidates(query: string, cands: seq<Document>) returns (scored: seq<ScoredDoc>)
    ensures |scored| == |cands|
    ensures forall i :: 0 <= i < |cands| ==>
              scored[i].doc == cands[i] && scored[i].score == WordOverlap(query, cands[i].text)
    ensures scored == ScoreAll(query, cands)
  {
    scored := [];
    for i := 0 to |cands|
      invariant |scored| == i
      invariant forall j :: 0 <= j < i ==> scored[j] == ScoredDoc(Score(query, cands[j]), cands[j])
    {
      var score := WordOverlap(query, cands[i].text);
      scored := scored + [ScoredDoc(score, cands[i])];
    }
  }

  /** Every pair carries the score of its own document. */
  predicate WellScored(query: string, ps: seq<ScoredDoc>)
  {
    forall p :: p in ps ==> p.score == Score(query, p.doc)
  }

  // ---------------------------------------------------------------------
  // Stable sort by score, descending
  // ---------------------------------------------------------------------

  predicate Descending(ps: seq<ScoredDoc>)
  {
    forall i, j :: 0 <= i < j < |ps| ==> ps[i].score >= ps[j].score
  }

  /** The pairs of `ps` whose score is `s`, in their order in `ps`. */
  function WithScore(ps: seq<ScoredDoc>, s: nat): seq<ScoredDoc>
  {
    if ps == [] then []
    else (if ps[0].score == s then [ps[0]] else []) + WithScore(ps[1..], s)
  }

  /** Inserts `x` in front of the first pair whose score is not higher than its own. */
  function Insert(x: ScoredDoc, ps: seq<ScoredDoc>): seq<ScoredDoc>
  {
    if ps == [] || ps[0].score <= x.score then [x] + ps
    else [ps[0]] + Insert(x, ps[1..])
  }

  /** `scored_docs.sort(key=lambda x: x[0], reverse=True)`, as a stable insertion sort. */
  function SortByScore(ps: seq<ScoredDoc>): seq<ScoredDoc>
  {
    if ps == [] then [] else Insert(ps[0], SortByScore(ps[1..]))
  }

  lemma {:induction false} InsertPermutes(x: ScoredDoc, ps: seq<ScoredDoc>)
    ensures multiset(Insert(x, ps)) == multiset(ps) + multiset{x}
  {
    if ps != [] && ps[0].score > x.score {
      InsertPermutes(x, ps[1..]);
      assert ps == [ps[0]] + ps[1..];
    }
  }

  lemma {:induction false} InsertDescending(x: ScoredDoc, ps: seq<ScoredDoc>)
    requires Descending(ps)
    ensures Descending(Insert(x, ps))
  {
    if ps != [] && ps[0].score > x.score {
      var rest := Insert(x, ps[1..]);
      InsertDescending(x, ps[1..]);
      InsertPermutes(x, ps[1..]);
      forall j | 0 <= j < |rest|
        ensures ps[0].score >= rest[j].score
      {
        assert rest[j] in multiset(rest);
        if rest[j] != x {
          assert rest[j] in multiset(ps[1..]);
          var k :| 0 <= k < |ps[1..]| && ps[1..][k] == rest[j];
          assert ps[k + 1] == rest[j];
        }
      }
    }
  }

  lemma {:induction false} InsertStable(x: ScoredDoc, ps: seq<ScoredDoc>, s: nat)
    ensures WithScore(Insert(x, ps), s) == (if x.score == s then [x] else []) + WithScore(ps, s)
  {
    if ps == [] || ps[0].score <= x.score {
      var r := [x] + ps;
      assert r[0] == x && r[1..] == ps;
      assert WithScore(r, s) == (if x.score == s then [x] else []) + WithScore(ps, s);
    } else {
      var rest := Insert(x, ps[1..]);
      var r := [ps[0]] + rest;
      InsertStable(x, ps[1..], s);
      assert r[0] == ps[0] && r[1..] == rest;
      var head := if ps[0].score == s then [ps[0]] else [];
      assert WithScore(r, s) == head + WithScore(rest, s);
      assert WithScore(ps, s) == head + WithScore(ps[1..], s);
      if x.score == s {
        assert head == [];
      }
    }
  }

  /** The sort is a permutation of its input. */
  lemma {:induction false} SortPermutes(ps: seq<ScoredDoc>)
    ensures multiset(SortByScore(ps)) == multiset(ps)
  {
    if ps != [] {
      SortPermutes(ps[1..]);
      InsertPermutes(ps[0], SortByScore(ps[1..]));
      assert ps == [ps[0]] + ps[1..];
    }
  }

  /** The sort orders by score, highest first. */
  lemma {:induction false} SortDescending(ps: seq<ScoredDoc>)
    ensures Descending(SortByScore(ps))
  {
    if ps != [] {
      SortDescending(ps[1..]);
      InsertDescending(ps[0], SortByScore(ps[1..]));
    }
  }

  /** The sort is stable: pairs of equal score keep their relative input order. */
  lemma {:induction false} SortStable(ps: seq<ScoredDoc>, s: nat)
    ensures WithScore(SortByScore(ps), s) == WithScore(ps, s)
  {
    if ps != [] {
      SortStable(ps[1..], s);
      InsertStable(ps[0], SortByScore(ps[1..]), s);
    }
  }

  /** When every score is the same, the sort leaves the list as it is. */
  lemma {:induction false} SortAllEqual(ps: seq<ScoredDoc>, s: nat)
    requires forall i :: 0 <= i < |ps| ==> ps[i].score == s
    ensures SortByScore(ps) == ps
  {
    if ps != [] {
      SortAllEqual(ps[1..], s);
    }
  }

  // ---------------------------------------------------------------------
  // Truncation and the whole pipeline
  // ---------------------------------------------------------------------

  /** Python's `xs[:k]`: a negative `k` drops `-k` elements from the end. */
  function Slice<T>(xs: seq<T>, k: int): (r: seq<T>)
    ensures |r| <= |xs| && r == xs[..|r|]
    ensures k >= 0 ==> |r| == if k <= |xs| then k else |xs|
    ensures k < 0 ==> |r| == if -k <= |xs| then |xs| + k else 0
  {
    if k >= 0 then (if k <= |xs| then xs[..k] else xs)
    else if -k <= |xs| then xs[..|xs| + k] else []
  }

  /** `[doc for score, doc in pairs]` */
  function DocsOf(ps: seq<ScoredDoc>): seq<Document>
  {
    seq(|ps|, i requires 0 <= i < |ps| => ps[i].doc)
  }

  /** The candidates in ranked order, before truncation. */
  function Ranked(docs: seq<Document>, companyId: string, sectionType: string, query: string): seq<Document>
  {
    DocsOf(SortByScore(ScoreAll(query, Candidates(docs, companyId, sectionType))))
  }

  /** `retrieve_documents(documents, company_id, section_type, query_text, top_k)` */
  function Retrieve(docs: seq<Document>, companyId: string, sectionType: string, query: string, topK: int): seq<Document>
  {
    DocsOf(Slice(SortByScore(ScoreAll(query, Candidates(docs, companyId, sectionType))), topK))
  }

  /** `retrieve_documents` step by step, with the scoring loop of the source. */
  method RetrieveDocuments(docs: seq<Document>, companyId: string, sectionType: string, query: string, topK: int)
    returns (top: seq<Document>)
    ensures top == Retrieve(docs, companyId, sectionType, query, topK)
  {
    var filtered := FilterExact(docs, companyId, sectionType);
    if filtered == [] {
      filtered := FilterCompany(docs, companyId);
      if filtered == [] {
        filtered := docs;
      }
    }
    var scored := ScoreCandidates(query, filtered);
    scored := SortByScore(scored);
    top := DocsOf(Slice(scored, topK));
  }

  // ---------------------------------------------------------------------
  // Properties of the pipeline
  // ---------------------------------------------------------------------

  lemma {:induction false} InsertDocsPermutes(x: ScoredDoc, ps: seq<ScoredDoc>)
    ensures multiset(DocsOf(Insert(x, ps))) == multiset(DocsOf(ps)) + multiset{x.doc}
  {
    if ps == [] || ps[0].score <= x.score {
      assert DocsOf([x] + ps) == [x.doc] + DocsOf(ps);
    } else {
      InsertDocsPermutes(x, ps[1..]);
      assert DocsOf([ps[0]] + Insert(x, ps[1..])) == [ps[0].doc] + DocsOf(Insert(x, ps[1..]));
      assert DocsOf(ps) == [ps[0].doc] + DocsOf(ps[1..]);
    }
  }

  lemma {:induction false} SortDocsPermutes(ps: seq<ScoredDoc>)
    ensures multiset(DocsOf(SortByScore(ps))) == multiset(DocsOf(ps))
  {
    if ps != [] {
      SortDocsPermutes(ps[1..]);
      InsertDocsPermutes(ps[0], SortByScore(ps[1..]));
      assert DocsOf(ps) == [ps[0].doc] + DocsOf(ps[1..]);
    }
  }

  lemma DocsOfConcat(ps: seq<ScoredDoc>, qs: seq<ScoredDoc>)
    ensures DocsOf(ps + qs) == DocsOf(ps) + DocsOf(qs)
  {
  }

  lemma ScoreAllDocs(query: string, cands: seq<Document>)
    ensures DocsOf(ScoreAll(query, cands)) == cands
    ensures WellScored(query, ScoreAll(query, cands))
  {
  }

  /** The ranked list is a permutation of the candidates, every pair keeping its score. */
  lemma RankedPermutes(docs: seq<Document>, companyId: string, sectionType: string, query: string)
    ensures multiset(Ranked(docs, companyId, sectionType, query)) == multiset(Candidates(docs, companyId, sectionType))
  {
    var scored := ScoreAll(query, Candidates(docs, companyId, sectionType));
    SortDocsPermutes(scored);
    ScoreAllDocs(query, Candidates(docs, companyId, sectionType));
  }

  /** The result is the first elements of the ranked candidates. */
  lemma RetrieveIsPrefix(docs: seq<Document>, companyId: string, sectionType: string, query: string, topK: int)
    ensures var r := Retrieve(docs, companyId, sectionType, query, topK);
            var ranked := Ranked(docs, companyId, sectionType, query);
            |r| <= |ranked| && r == ranked[..|r|]
  {
  }

  /** `top_k >= 0` keeps `min(top_k, |candidates|)` documents; a negative `top_k`
      drops `-top_k` from the end; no documents give no result. */
  lemma RetrieveLength(docs: seq<Document>, companyId: string, sectionType: string, query: string, topK: int)
    ensures var r := Retrieve(docs, companyId, sectionType, query, topK);
            var n := |Candidates(docs, companyId, sectionType)|;
            && (topK >= 0 ==> |r| == if topK <= n then topK else n)
            && (topK < 0 ==> |r| == if -topK <= n then n + topK else 0)
            && (docs == [] ==> r == [])
  {
    var scored := ScoreAll(query, Candidates(docs, companyId, sectionType));
    SortPermutes(scored);
    var sorted := SortByScore(scored);
    assert |sorted| == |scored| by {
      assert |multiset(sorted)| == |multiset(scored)|;
    }
    var sliced := Slice(sorted, topK);
    assert |DocsOf(sliced)| == |sliced|;
  }

  /** Every returned document comes from the input, and none is returned more
      often than it occurs there. */
  lemma RetrieveFromInput(docs: seq<Document>, companyId: string, sectionType: string, query: string, topK: int)
    ensures var r := Retrieve(docs, companyId, sectionType, query, topK);
            multiset(r) <= multiset(Candidates(docs, companyId, sectionType)) &&
            multiset(r) <= multiset(docs)
  {
    var r := Retrieve(docs, companyId, sectionType, query, topK);
    var ranked := Ranked(docs, companyId, sectionType, query);
    RetrieveIsPrefix(docs, companyId, sectionType, query, topK);
    RankedPermutes(docs, companyId, sectionType, query);
    CandidatesFallback(docs, companyId, sectionType);
    assert ranked == r + ranked[|r|..];
    assert multiset(ranked) == multiset(r) + multiset(ranked[|r|..]);
  }

  lemma RetrieveMembers(docs: seq<Document>, companyId: string, sectionType: string, query: string, topK: int)
    ensures forall d :: d in Retrieve(docs, companyId, sectionType, query, topK) ==>
              d in Candidates(docs, companyId, sectionType)
  {
    RetrieveFromInput(docs, companyId, sectionType, query, topK);
    var r := Retrieve(docs, companyId, sectionType, query, topK);
    forall d | d in r ensures d in Candidates(docs, companyId, sectionType) {
      assert d in multiset(r);
    }
  }

  /** When some document matches both keys, the fallbacks do not fire. */
  lemma RetrieveExactMatch(docs: seq<Document>, companyId: string, sectionType: string, query: string, topK: int)
    requires exists d :: d in docs && MatchesBoth(d, companyId, sectionType)
    ensures forall d :: d in Retrieve(docs, companyId, sectionType, query, topK) ==>
              MatchesBoth(d, companyId, sectionType)
  {
    CandidatesFallback(docs, companyId, sectionType);
    RetrieveMembers(docs, companyId, sectionType, query, topK);
  }

  /** When nothing matches both keys but some document has the company, every
      result has that company. */
  lemma RetrieveCompanyFallback(docs: seq<Document>, companyId: string, sectionType: string, query: string, topK: int)
    requires forall d :: d in docs ==> !MatchesBoth(d, companyId, sectionType)
    requires exists d :: d in docs && d.companyId == companyId
    ensures forall d :: d in Retrieve(docs, companyId, sectionType, query, topK) ==>
              d.companyId == companyId
  {
    CandidatesFallback(docs, companyId, sectionType);
    RetrieveMembers(docs, companyId, sectionType, query, topK);
  }

  lemma DocsOfSlice(ps: seq<ScoredDoc>, k: int)
    ensures DocsOf(Slice(ps, k)) == Slice(DocsOf(ps), k)
  {
  }

  /** Scores never increase along the result. */
  lemma RetrieveDescending(docs: seq<Document>, companyId: string, sectionType: string, query: string, topK: int)
    ensures var r := Retrieve(docs, companyId, sectionType, query, topK);
            forall i, j :: 0 <= i < j < |r| ==> Score(query, r[i]) >= Score(query, r[j])
  {
    var scored := ScoreAll(query, Candidates(docs, companyId, sectionType));
    var sorted := SortByScore(scored);
    SortDescending(scored);
    SortPermutes(scored);
    ScoreAllDocs(query, Candidates(docs, companyId, sectionType));
    forall p | p in sorted ensures p.score == Score(query, p.doc) {
      assert p in multiset(scored);
    }
  }

  /** The documents of `ds` whose score is `s`, in their order in `ds`. */
  function DocsWithScore(query: string, ds: seq<Document>, s: nat): seq<Document>
  {
    if ds == [] then []
    else (if Score(query, ds[0]) == s then [ds[0]] else []) + DocsWithScore(query, ds[1..], s)
  }

  lemma {:induction false} DocsWithScoreOf(query: string, ps: seq<ScoredDoc>, s: nat)
    requires WellScored(query, ps)
    ensures DocsOf(WithScore(ps, s)) == DocsWithScore(query, DocsOf(ps), s)
  {
    if ps != [] {
      var p := ps[0];
      assert p in ps;
      assert p.score == Score(query, p.doc);
      DocsWithScoreOf(query, ps[1..], s);
      var ds := DocsOf(ps);
      assert ds[0] == p.doc && ds[1..] == DocsOf(ps[1..]);
      var head := if p.score == s then [p] else [];
      var rest := WithScore(ps[1..], s);
      assert WithScore(ps, s) == head + rest;
      DocsOfConcat(head, rest);
      assert DocsOf(head) == if Score(query, p.doc) == s then [p.doc] else [];
      assert DocsWithScore(query, ds, s) ==
             (if Score(query, ds[0]) == s then [ds[0]] else []) + DocsWithScore(query, ds[1..], s);
    }
  }

  lemma {:induction false} WithScorePrefix(ps: seq<ScoredDoc>, n: nat, s: nat)
    requires n <= |ps|
    ensures |WithScore(ps[..n], s)| <= |WithScore(ps, s)|
    ensures WithScore(ps[..n], s) == WithScore(ps, s)[..|WithScore(ps[..n], s)|]
  {
    if n > 0 {
      WithScorePrefix(ps[1..], n - 1, s);
      var pre := ps[..n];
      assert pre[0] == ps[0] && pre[1..] == ps[1..][..n - 1];
      var head := if ps[0].score == s then [ps[0]] else [];
      var a := WithScore(ps[1..][..n - 1], s);
      var b := WithScore(ps[1..], s);
      assert WithScore(pre, s) == head + a;
      assert WithScore(ps, s) == head + b;
      assert head + a == (head + b)[..|head| + |a|];
    } else {
      assert ps[..n] == [];
    }
  }

  /** Stability of one ranking: for every score, the documents of that score
      kept after truncation are the first ones of that score in the input. */
  lemma {:induction false} RankStable(query: string, cands: seq<Document>, topK: int, s: nat)
    ensures var r := DocsOf(Slice(SortByScore(ScoreAll(query, cands)), topK));
            var tied := DocsWithScore(query, cands, s);
            var kept := DocsWithScore(query, r, s);
            |kept| <= |tied| && kept == tied[..|kept|]
  {
    var scored := ScoreAll(query, cands);
    var sorted := SortByScore(scored);
    ScoreAllDocs(query, cands);
    SortPermutes(scored);
    SortStable(scored, s);
    var top := Slice(sorted, topK);
    assert top == sorted[..|top|];
    assert WellScored(query, top) by {
      forall p | p in top ensures p.score == Score(query, p.doc) {
        assert p in sorted;
        assert p in multiset(scored);
      }
    }
    WithScorePrefix(sorted, |top|, s);
    DocsWithScoreOf(query, top, s);
    DocsWithScoreOf(query, scored, s);
    var kept, tied := WithScore(top, s), WithScore(scored, s);
    assert kept == tied[..|kept|];
    assert DocsOf(kept) == DocsOf(tied)[..|kept|];
  }

  /** Stability: for every score, the result's documents of that score are the
      first ones of that score among the candidates, in candidate order. */
  lemma RetrieveStable(docs: seq<Document>, companyId: string, sectionType: string, query: string, topK: int, s: nat)
    ensures var r := Retrieve(docs, companyId, sectionType, query, topK);
            var tied := DocsWithScore(query, Candidates(docs, companyId, sectionType), s);
            var kept := DocsWithScore(query, r, s);
            |kept| <= |tied| && kept == tied[..|kept|]
  {
    RankStable(query, Candidates(docs, companyId, sectionType), topK, s);
  }

  /** With an empty or all-whitespace query every score is 0, so the result is
      the first `top_k` candidates in input order. */
  lemma RetrieveBlankQuery(docs: seq<Document>, companyId: string, sectionType: string, query: string, topK: int)
    requires AllSpace(query)
    ensures Retrieve(docs, companyId, sectionType, query, topK) == Slice(Candidates(docs, companyId, sectionType), topK)
  {
    var cands := Candidates(docs, companyId, sectionType);
    var scored := ScoreAll(query, cands);
    forall i | 0 <= i < |scored| ensures scored[i].score == 0 {
      OverlapWithBlank(query, cands[i].text);
    }
    SortAllEqual(scored, 0);
    ScoreAllDocs(query, cands);
    DocsOfSlice(scored, topK);
  }

  function SampleDocument(id: string, text: string): Document
  {
    Document(id, "123", "x", "en", text, None, None, None, None)
  }

  lemma SampleScoreFirst()
    ensures WordOverlap("beta", "alpha beta") == 1
  {
    assert Lower("beta") == "beta" && NoSpace("beta");
    WordSetOfOne("beta", "beta");
    assert Lower("alpha beta") == "alpha" + " " + "beta" && NoSpace("alpha");
    WordSetOfTwo("alpha beta", "alpha", "beta");
    assert {"beta"} * {"alpha", "beta"} == {"beta"};
  }

  lemma SampleScoreSecond()
    ensures WordOverlap("beta", "beta gamma") == 1
  {
    assert Lower("beta") == "beta" && NoSpace("beta");
    WordSetOfOne("beta", "beta");
    assert Lower("beta gamma") == "beta" + " " + "gamma" && NoSpace("gamma");
    WordSetOfTwo("beta gamma", "beta", "gamma");
    assert {"beta"} * {"beta", "gamma"} == {"beta"};
  }

  lemma SampleCandidates(d1: Document, d2: Document)
    requires MatchesBoth(d1, "123", "x") && MatchesBoth(d2, "123", "x")
    ensures Candidates([d1, d2], "123", "x") == [d1, d2]
  {
    assert [d1, d2][1..] == [d2];
    assert FilterExact([d2], "123", "x") == [d2];
    assert FilterExact([d1, d2], "123", "x") == [d1, d2];
  }

  lemma SampleRanking(d1: Document, d2: Document)
    requires MatchesBoth(d1, "123", "x") && MatchesBoth(d2, "123", "x")
    requires Score("beta", d1) == 1 && Score("beta", d2) == 1
    ensures Retrieve([d1, d2], "123", "x", "beta", 2) == [d1, d2]
  {
    SampleCandidates(d1, d2);
    var scored := [ScoredDoc(1, d1), ScoredDoc(1, d2)];
    assert ScoreAll("beta", [d1, d2]) == scored;
    SortAllEqual(scored, 1);
    assert Slice(scored, 2) == scored;
    assert DocsOf(scored) == [d1, d2];
  }

  /** Two documents of the requested company and section, both sharing one
      word with the query: both are returned, in their input order. */
  lemma TiedScoresKeepInputOrder()
    ensures var d1 := SampleDocument("d1", "alpha beta");
            var d2 := SampleDocument("d2", "beta gamma");
            Retrieve([d1, d2], "123", "x", "beta", 2) == [d1, d2]
  {
    SampleScoreFirst();
    SampleScoreSecond();
    SampleRanking(SampleDocument("d1", "alpha beta"), SampleDocument("d2", "beta gamma"));
  }
}
