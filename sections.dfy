/**
 * The request handlers of app/routes/sections_controller.py, without the HTTP
 * layer: the document list, `top_k`, the request identifier and the timestamp
 * are parameters (the source reads them from the data service, the
 * environment, uuid4 and the clock).
 */
module Sections {
  import opened Domain
  import Retrieval
  import Generation
  import History

  /** Body of a successful `POST /generate-section`. */
  datatype GenerateSectionResponse = GenerateSectionResponse(
    companyId: string,
    sectionType: string,
    generatedText: string,
    sources: seq<string>,
    requestId: string,
    createdAt: string)

  /** One element of the `GET /history/{company_id}` body. */
  datatype HistoryResponse = HistoryResponse(
    requestId: string,
    createdAt: string,
    companyId: string,
    sectionType: string,
    sources: seq<string>)

  /** An `HTTPException` raised by a handler. */
  datatype HttpError = HttpError(statusCode: nat, detail: string)

  datatype Result<+T> = Ok(value: T) | Err(error: HttpError)

  const NoDocumentsDetail: string := "No documents available. Data file may not be loaded."

  /** `POST /generate-section`: 503 when no documents are loaded; otherwise
      retrieve, compose, append exactly one history entry whose sources are
      the retrieved identifiers in ranked order, and answer with the same. */
  method GenerateSection(
    ledger: History.Ledger, allDocs: seq<Document>,
    companyId: string, sectionType: string, text: string,
    topK: int, requestId: string, createdAt: string)
    returns (res: Result<GenerateSectionResponse>)
    modifies ledger
    ensures allDocs == [] ==>
              res == Err(HttpError(503, NoDocumentsDetail)) && ledger.entries == old(ledger.entries)
    ensures allDocs != [] ==>
              var top := Retrieval.Retrieve(allDocs, companyId, sectionType, text, topK);
              && res == Ok(GenerateSectionResponse(companyId, sectionType,
                                                   Generation.GenerateSection(text, top), Ids(top),
                                                   requestId, createdAt))
              && ledger.entries == old(ledger.entries) + [HistoryEntry(requestId, createdAt, companyId, sectionType, Ids(top))]
  {
    if allDocs == [] {
      return Err(HttpError(503, NoDocumentsDetail));
    }
    var topDocuments := Retrieval.RetrieveDocuments(allDocs, companyId, sectionType, text, topK);
    var generatedText := Generation.ComposeSection(text, topDocuments);
    var sources := Ids(topDocuments);
    var entry := HistoryEntry(requestId, createdAt, companyId, sectionType, sources);
    ledger.AddEntry(entry);
    res := Ok(GenerateSectionResponse(companyId, sectionType, generatedText, sources, requestId, createdAt));
  }

  /** One history entry as a response item: the same five fields. */
  function ToResponse(e: HistoryEntry): HistoryResponse
  {
    HistoryResponse(e.requestId, e.createdAt, e.companyId, e.sectionType, e.sources)
  }

  /** `GET /history/{company_id}`: one response per entry of that company, in
      insertion order, each carrying that entry's fields. */
  function GetHistory(ledger: History.Ledger, companyId: string): (r: seq<HistoryResponse>)
    reads ledger
    ensures var es := History.EntriesFor(ledger.entries, companyId);
            |r| == |es| && forall i :: 0 <= i < |r| ==> r[i] == ToResponse(es[i])
    ensures |r| == multiset(History.CompanyIds(ledger.entries))[companyId]
    ensures forall i :: 0 <= i < |r| ==> r[i].companyId == companyId
  {
    var entries := ledger.GetByCompanyId(companyId);
    assert forall i :: 0 <= i < |entries| ==> entries[i] in entries;
    seq(|entries|, i requires 0 <= i < |entries| => ToResponse(entries[i]))
  }

  /** The sources a successful request records are the retrieved documents'
      identifiers: no more than `top_k` of them (for `top_k >= 0`), all
      identifiers of input documents, and never more than the number of
      candidates. */
  lemma SourcesBound(allDocs: seq<Document>, companyId: string, sectionType: string, text: string, topK: int)
    ensures var sources := Ids(Retrieval.Retrieve(allDocs, companyId, sectionType, text, topK));
            && (topK >= 0 ==> |sources| <= topK)
            && |sources| <= |Retrieval.Candidates(allDocs, companyId, sectionType)|
            && forall i :: 0 <= i < |sources| ==> exists d :: d in allDocs && d.id == sources[i]
  {
    var top := Retrieval.Retrieve(allDocs, companyId, sectionType, text, topK);
    Retrieval.RetrieveLength(allDocs, companyId, sectionType, text, topK);
    Retrieval.RetrieveFromInput(allDocs, companyId, sectionType, text, topK);
    forall i | 0 <= i < |top| ensures top[i] in allDocs {
      assert top[i] in multiset(top);
    }
  }
}
