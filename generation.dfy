/**
 * The section composer (app/services/generation_service.py): a fixed message
 * for no documents, otherwise an introduction stating the count followed by
 * one numbered block per document, the blocks joined by blank lines.
 */
module Generation {
  import opened Domain

  const NoDocumentsMessage: string := "No relevant documents found for the requested section."

  // ---------------------------------------------------------------------
  // Decimal rendering of counts and positions (Python's str(int) on a nat)
  // ---------------------------------------------------------------------

  predicate IsDigit(c: char)
  {
    '0' <= c <= '9'
  }

  function DigitChar(d: nat): (c: char)
    requires d < 10
    ensures IsDigit(c) && c as int - '0' as int == d
  {
    ('0' as int + d) as char
  }

  /** The decimal numeral of `n`, without leading zeros. */
  function NatToString(n: nat): (r: string)
    ensures 1 <= |r|
    ensures forall i :: 0 <= i < |r| ==> IsDigit(r[i])
    ensures |r| > 1 ==> r[0] != '0'
  {
    if n < 10 then [DigitChar(n)] else NatToString(n / 10) + [DigitChar(n % 10)]
  }

  /** The value of a string of decimal digits. */
  function DecimalValue(s: string): nat
    requires forall i :: 0 <= i < |s| ==> IsDigit(s[i])
  {
    if s == [] then 0
    else
      assert IsDigit(s[|s| - 1]);
      DecimalValue(s[..|s| - 1]) * 10 + (s[|s| - 1] as int - '0' as int)
  }

  /** The numeral reads back as the number it renders. */
  lemma {:induction false} NatToStringRoundTrip(n: nat)
    ensures DecimalValue(NatToString(n)) == n
  {
    if n >= 10 {
      NatToStringRoundTrip(n / 10);
      var s := NatToString(n);
      assert s[..|s| - 1] == NatToString(n / 10);
    }
  }

  // ---------------------------------------------------------------------
  // "\n\n".join
  // ---------------------------------------------------------------------

  /** `sep.join(parts)` */
  function Join(sep: string, parts: seq<string>): string
  {
    if parts == [] then []
    else if |parts| == 1 then parts[0]
    else parts[0] + sep + Join(sep, parts[1..])
  }

  /** Total length of a list of strings. */
  function TotalLength(parts: seq<string>): nat
  {
    if parts == [] then 0 else |parts[0]| + TotalLength(parts[1..])
  }

  /** Where part `i` starts in `sep.join(parts)`: the parts before it and one separator after each. */
  function PartOffset(sep: string, parts: seq<string>, i: nat): nat
    requires i <= |parts|
  {
    TotalLength(parts[..i]) + i * |sep|
  }

  /** A join of n parts holds the parts and exactly n - 1 separators, nothing more. */
  lemma {:induction false} JoinLength(sep: string, parts: seq<string>)
    requires parts != []
    ensures |Join(sep, parts)| == TotalLength(parts) + (|parts| - 1) * |sep|
  {
    if |parts| > 1 {
      JoinLength(sep, parts[1..]);
    }
  }

  /** Part `i` stands at its offset, and a separator follows every part but the last. */
  lemma {:induction false} JoinPart(sep: string, parts: seq<string>, i: nat)
    requires i < |parts|
    ensures var j := Join(sep, parts);
            var o := PartOffset(sep, parts, i);
            && o + |parts[i]| <= |j|
            && j[o..o + |parts[i]|] == parts[i]
            && (i + 1 < |parts| ==> o + |parts[i]| + |sep| <= |j| && j[o + |parts[i]|..o + |parts[i]| + |sep|] == sep)
  {
    var j := Join(sep, parts);
    if |parts| == 1 {
      assert parts[..0] == [];
    } else if i == 0 {
      assert parts[..0] == [];
      assert j == parts[0] + sep + Join(sep, parts[1..]);
    } else {
      var rest := parts[1..];
      JoinPart(sep, rest, i - 1);
      assert parts[..i][0] == parts[0] && parts[..i][1..] == rest[..i - 1];
      assert PartOffset(sep, parts, i) == |parts[0]| + |sep| + PartOffset(sep, rest, i - 1);
      assert j == parts[0] + sep + Join(sep, rest);
    }
  }

  // ---------------------------------------------------------------------
  // The composed section
  // ---------------------------------------------------------------------

  /** `f"Based on {len(documents)} relevant document(s), here is the compiled content:\n\n"` */
  function Intro(n: nat): string
  {
    "Based on " + NatToString(n) + " relevant document(s), here is the compiled content:\n\n"
  }

  /** `f"--- Document {i} (ID: {doc.id}) ---\n"` */
  function Separator(i: nat, id: string): string
  {
    "--- Document " + NatToString(i) + " (ID: " + id + ") ---\n"
  }

  /** The text of the `i`-th document (counted from 1) in the section. */
  function Block(i: nat, d: Document): string
  {
    Separator(i, d.id) + d.text
  }

  /** `document_texts` after the loop: one block per document, numbered from 1. */
  function Blocks(docs: seq<Document>): seq<string>
  {
    seq(|docs|, i requires 0 <= i < |docs| => Block(i + 1, docs[i]))
  }

  /** `generate_section(user_text, documents)` */
  function GenerateSection(userText: string, docs: seq<Document>): (r: string)
    ensures |r| > 0
    ensures docs == [] ==> r == NoDocumentsMessage
    ensures docs != [] ==> |Intro(|docs|)| <= |r| && r[..|Intro(|docs|)|] == Intro(|docs|)
  {
    if docs == [] then NoDocumentsMessage
    else Intro(|docs|) + Join("\n\n", Blocks(docs))
  }

  /** `generate_section` with the enumerate loop of the source. */
  method ComposeSection(userText: string, docs: seq<Document>) returns (text: string)
    ensures text == GenerateSection(userText, docs)
  {
    if docs == [] {
      return NoDocumentsMessage;
    }
    var intro := "Based on " + NatToString(|docs|) + " relevant document(s), here is the compiled content:\n\n";
    var documentTexts: seq<string> := [];
    for i := 0 to |docs|
      invariant |documentTexts| == i
      invariant forall j :: 0 <= j < i ==> documentTexts[j] == Block(j + 1, docs[j])
    {
      var separator := "--- Document " + NatToString(i + 1) + " (ID: " + docs[i].id + ") ---\n";
      documentTexts := documentTexts + [separator + docs[i].text];
    }
    assert documentTexts == Blocks(docs);
    text := intro + Join("\n\n", documentTexts);
  }

  /** The section is a function of the documents alone: the user's text is not used. */
  lemma SectionIgnoresUserText(userText1: string, userText2: string, docs: seq<Document>)
    ensures GenerateSection(userText1, docs) == GenerateSection(userText2, docs)
  {
  }

  /** The layout of a non-empty section: its length is the introduction, the
      blocks and one blank line between each pair of blocks; block i (numbered
      i + 1) stands at its offset after the introduction, followed by a blank
      line unless it is the last. */
  lemma SectionBlockAt(userText: string, docs: seq<Document>, i: nat)
    requires i < |docs|
    ensures var r := GenerateSection(userText, docs);
            var o := |Intro(|docs|)| + PartOffset("\n\n", Blocks(docs), i);
            var b := Block(i + 1, docs[i]);
            && |r| == |Intro(|docs|)| + TotalLength(Blocks(docs)) + (|docs| - 1) * 2
            && o + |b| <= |r|
            && r[o..o + |b|] == b
            && (i + 1 < |docs| ==> o + |b| + 2 <= |r| && r[o + |b|..o + |b| + 2] == "\n\n")
  {
    var blocks := Blocks(docs);
    var sep := "\n\n";
    assert |sep| == 2;
    assert GenerateSection(userText, docs) == Intro(|docs|) + Join(sep, blocks);
    assert blocks[i] == Block(i + 1, docs[i]);
    PrefixedJoinPart(Intro(|docs|), sep, blocks, i);
  }

  lemma PrefixedJoinPart(intro: string, sep: string, parts: seq<string>, i: nat)
    requires i < |parts|
    ensures var r := intro + Join(sep, parts);
            var o := |intro| + PartOffset(sep, parts, i);
            && |r| == |intro| + TotalLength(parts) + (|parts| - 1) * |sep|
            && o + |parts[i]| <= |r|
            && r[o..o + |parts[i]|] == parts[i]
            && (i + 1 < |parts| ==> o + |parts[i]| + |sep| <= |r| && r[o + |parts[i]|..o + |parts[i]| + |sep|] == sep)
  {
    var joined := Join(sep, parts);
    JoinLength(sep, parts);
    JoinPart(sep, parts, i);
    var o := PartOffset(sep, parts, i);
    SliceAfter(intro, joined, o, o + |parts[i]|);
    if i + 1 < |parts| {
      SliceAfter(intro, joined, o + |parts[i]|, o + |parts[i]| + |sep|);
    }
  }

  /** No trailing separator: a non-empty section ends with the last document's text. */
  lemma SectionEndsWithLastText(userText: string, docs: seq<Document>)
    requires docs != []
    ensures EndsWith(GenerateSection(userText, docs), docs[|docs| - 1].text)
  {
    var n := |docs|;
    var blocks := Blocks(docs);
    var b := blocks[n - 1];
    var last := docs[n - 1].text;
    var joined := Join("\n\n", blocks);
    JoinEndsWithLast("\n\n", blocks);
    EndsWithAppend(Separator(n, docs[n - 1].id), last, last);
    EndsWithAppend(Intro(n), joined, b);
    EndsWithTrans(Intro(n) + joined, b, last);
  }

  predicate EndsWith(s: string, t: string)
  {
    |t| <= |s| && s[|s| - |t|..] == t
  }

  lemma EndsWithAppend(a: string, s: string, t: string)
    requires EndsWith(s, t)
    ensures EndsWith(a + s, t)
  {
    assert (a + s)[|a + s| - |t|..] == s[|s| - |t|..];
  }

  lemma EndsWithTrans(s: string, t: string, u: string)
    requires EndsWith(s, t) && EndsWith(t, u)
    ensures EndsWith(s, u)
  {
    assert s[|s| - |u|..] == s[|s| - |t|..][|t| - |u|..];
  }

  /** `sep.join(parts)` ends with the last part: no separator trails it. */
  lemma {:induction false} JoinEndsWithLast(sep: string, parts: seq<string>)
    requires parts != []
    ensures EndsWith(Join(sep, parts), parts[|parts| - 1])
  {
    if |parts| > 1 {
      var rest := Join(sep, parts[1..]);
      JoinEndsWithLast(sep, parts[1..]);
      assert Join(sep, parts) == (parts[0] + sep) + rest;
      EndsWithAppend(parts[0] + sep, rest, parts[|parts| - 1]);
    }
  }

  lemma SliceAfter(a: string, b: string, lo: nat, hi: nat)
    requires lo <= hi <= |b|
    ensures (a + b)[|a| + lo..|a| + hi] == b[lo..hi]
  {
  }
}
