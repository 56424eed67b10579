/**
 * The history ledger (app/services/history_service.py): an append-only,
 * in-memory list of history entries with a query by company.
 */
module History {
  import opened Domain

  /** `[entry for entry in entries if entry.company_id == company_id]` */
  function EntriesFor(entries: seq<HistoryEntry>, companyId: string): seq<HistoryEntry>
  {
    if entries == [] then []
    else (if entries[0].companyId == companyId then [entries[0]] else []) + EntriesFor(entries[1..], companyId)
  }

  /** The company identifiers of the entries, in order. */
  function CompanyIds(entries: seq<HistoryEntry>): seq<string>
  {
    seq(|entries|, i requires 0 <= i < |entries| => entries[i].companyId)
  }

  /** The query returns exactly the entries of that company. */
  lemma {:induction false} EntriesForMembers(entries: seq<HistoryEntry>, companyId: string)
    ensures forall e :: e in EntriesFor(entries, companyId) <==> e in entries && e.companyId == companyId
  {
    if entries != [] {
      EntriesForMembers(entries[1..], companyId);
      assert entries == [entries[0]] + entries[1..];
    }
  }

  /** The query keeps the entries in insertion order: its result is a subsequence of the history. */
  lemma {:induction false} EntriesForInOrder(entries: seq<HistoryEntry>, companyId: string)
    ensures IsSubsequence(EntriesFor(entries, companyId), entries)
  {
    if entries != [] {
      EntriesForInOrder(entries[1..], companyId);
      var rest := EntriesFor(entries[1..], companyId);
      if entries[0].companyId == companyId {
        var r := EntriesFor(entries, companyId);
        assert r == [entries[0]] + rest;
        assert r[0] == entries[0] && r[1..] == rest;
      } else {
        assert EntriesFor(entries, companyId) == rest;
      }
    }
  }

  /** The query returns every entry of the company, each as often as it was
      appended: its length is the number of entries with that company. */
  lemma {:induction false} EntriesForCount(entries: seq<HistoryEntry>, companyId: string)
    ensures |EntriesFor(entries, companyId)| == multiset(CompanyIds(entries))[companyId]
  {
    if entries != [] {
      EntriesForCount(entries[1..], companyId);
      assert CompanyIds(entries) == [entries[0].companyId] + CompanyIds(entries[1..]);
    }
  }

  /** Appending one entry extends the query of its company by that entry and
      leaves every other company's query as it was. */
  lemma {:induction false} EntriesForAppend(entries: seq<HistoryEntry>, e: HistoryEntry, companyId: string)
    ensures EntriesFor(entries + [e], companyId) ==
            EntriesFor(entries, companyId) + (if e.companyId == companyId then [e] else [])
  {
    EntriesForConcat(entries, [e], companyId);
    assert EntriesFor([e], companyId) == (if e.companyId == companyId then [e] else []) + EntriesFor([], companyId);
  }

  /** A company with no entry in the history has an empty query result. */
  lemma {:induction false} EntriesForNone(entries: seq<HistoryEntry>, companyId: string)
    requires forall e :: e in entries ==> e.companyId != companyId
    ensures EntriesFor(entries, companyId) == []
  {
    if entries != [] {
      assert entries[0] in entries;
      EntriesForNone(entries[1..], companyId);
    }
  }

  /** The in-memory history `_history`. */
  class Ledger {
    var entries: seq<HistoryEntry>

    /** A fresh process starts with an empty history. */
    constructor ()
      ensures entries == []
    {
      entries := [];
    }

    /** `add_entry`: appends at the end, leaving the earlier entries as they were. */
    method AddEntry(entry: HistoryEntry)
      modifies this
      ensures entries == old(entries) + [entry]
    {
      entries := entries + [entry];
    }

    /** `get_by_company_id`: only that company's entries, every one of them, in insertion order. */
    function GetByCompanyId(companyId: string): (r: seq<HistoryEntry>)
      reads this
      ensures forall e :: e in r ==> e.companyId == companyId
      ensures |r| == multiset(CompanyIds(entries))[companyId]
      ensures IsSubsequence(r, entries)
    {
      EntriesForMembers(entries, companyId);
      EntriesForCount(entries, companyId);
      EntriesForInOrder(entries, companyId);
      EntriesFor(entries, companyId)
    }

    /** `get_all`: the whole history, in insertion order. */
    function GetAll(): (r: seq<HistoryEntry>)
      reads this
      ensures |r| == |entries| && forall i :: 0 <= i < |r| ==> r[i] == entries[i]
    {
      entries
    }
  }

  /** Starting from an empty ledger, N appends for one company and M for
      another: each query returns its own company's entries, in call order. */
  method TwoCompanies(a: string, b: string, forA: seq<HistoryEntry>, forB: seq<HistoryEntry>)
    returns (historyA: seq<HistoryEntry>, historyB: seq<HistoryEntry>)
    requires a != b
    requires forall e :: e in forA ==> e.companyId == a
    requires forall e :: e in forB ==> e.companyId == b
    ensures historyA == forA && historyB == forB
  {
    var ledger := new Ledger();
    for i := 0 to |forA|
      invariant ledger.entries == forA[..i]
    {
      ledger.AddEntry(forA[i]);
      assert forA[..i + 1] == forA[..i] + [forA[i]];
    }
    assert forA[..|forA|] == forA;
    for i := 0 to |forB|
      invariant ledger.entries == forA + forB[..i]
    {
      ledger.AddEntry(forB[i]);
      assert forB[..i + 1] == forB[..i] + [forB[i]];
    }
    assert forB[..|forB|] == forB;
    OnlyCompany(forA, a);
    OnlyCompany(forB, b);
    EntriesForNone(forA, b);
    EntriesForNone(forB, a);
    EntriesForConcat(forA, forB, a);
    EntriesForConcat(forA, forB, b);
    historyA := ledger.GetByCompanyId(a);
    historyB := ledger.GetByCompanyId(b);
  }

  lemma {:induction false} OnlyCompany(entries: seq<HistoryEntry>, companyId: string)
    requires forall e :: e in entries ==> e.companyId == companyId
    ensures EntriesFor(entries, companyId) == entries
  {
    if entries != [] {
      assert entries[0] in entries;
      OnlyCompany(entries[1..], companyId);
    }
  }

  lemma {:induction false} EntriesForConcat(xs: seq<HistoryEntry>, ys: seq<HistoryEntry>, companyId: string)
    ensures EntriesFor(xs + ys, companyId) == EntriesFor(xs, companyId) + EntriesFor(ys, companyId)
  {
    if xs == [] {
      assert xs + ys == ys;
    } else {
      var zs := xs + ys;
      EntriesForConcat(xs[1..], ys, companyId);
      assert zs[0] == xs[0] && zs[1..] == xs[1..] + ys;
      var head := if xs[0].companyId == companyId then [xs[0]] else [];
      var a, b := EntriesFor(xs[1..], companyId), EntriesFor(ys, companyId);
      calc {
        EntriesFor(zs, companyId);
        head + EntriesFor(zs[1..], companyId);
        head + (a + b);
        { assert head + (a + b) == (head + a) + b; }
        (head + a) + b;
        EntriesFor(xs, companyId) + b;
      }
    }
  }
}
