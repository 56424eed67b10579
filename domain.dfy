/**
 * The records the services pass around: a stored document snippet and one
 * audit record of a generation request (app/models/domain.py).
 */
module Domain {

  datatype Option<+T> = None | Some(value: T)

  /** A document loaded once from the document source; never mutated. */
  datatype Document = Document(
    id: string,
    companyId: string,
    sectionType: string,
    language: string,
    text: string,
    tags: Option<seq<string>>,
    sourceType: Option<string>,
    sourceUrl: Option<string>,
    createdAt: Option<string>)

  /** One generation request as recorded in the history ledger. */
  datatype HistoryEntry = HistoryEntry(
    requestId: string,
    createdAt: string,
    companyId: string,
    sectionType: string,
    sources: seq<string>)

  /** The identifiers of a list of documents, in list order. */
  function Ids(docs: seq<Document>): seq<string>
  {
    seq(|docs|, i requires 0 <= i < |docs| => docs[i].id)
  }

  /** `xs` is `ys` with some elements left out, the rest in their order. */
  predicate IsSubsequence<T(==)>(xs: seq<T>, ys: seq<T>)
    decreases |ys|
  {
    if ys == [] then xs == []
    else (xs != [] && xs[0] == ys[0] && IsSubsequence(xs[1..], ys[1..])) || IsSubsequence(xs, ys[1..])
  }

  /** Every sequence is a subsequence of itself. */
  lemma {:induction false} SubsequenceOfSelf<T>(xs: seq<T>)
    ensures IsSubsequence(xs, xs)
  {
    if xs != [] {
      SubsequenceOfSelf(xs[1..]);
    }
  }
}
