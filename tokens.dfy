/**
 * Word tokenisation and the word-overlap similarity score of the retrieval
 * service: `set(text.lower().split())` and the size of the intersection of
 * two such sets.
 */
module Tokens {

  /** The code points Python's str.split() (no argument) splits on. */
  predicate IsSpace(c: char)
  {
    var n := c as int;
    (9 <= n <= 13) || (28 <= n <= 32) || n == 133 || n == 160 || n == 5760 ||
    (8192 <= n <= 8202) || n == 8232 || n == 8233 || n == 8239 || n == 8287 || n == 12288
  }

  predicate AllSpace(s: string)
  {
    forall i :: 0 <= i < |s| ==> IsSpace(s[i])
  }

  predicate NoSpace(s: string)
  {
    forall i :: 0 <= i < |s| ==> !IsSpace(s[i])
  }

  /** ASCII lowercasing of one character. */
  function LowerChar(c: char): (r: char)
    ensures IsSpace(r) == IsSpace(c)
    ensures 'A' <= c <= 'Z' ==> 'a' <= r <= 'z' && r as int == c as int + ('a' as int - 'A' as int)
    ensures !('A' <= c <= 'Z') ==> r == c
  {
    if 'A' <= c <= 'Z' then (c as int + 32) as char else c
  }

  /** `s.lower()`, restricted to ASCII letters. */
  function Lower(s: string): (r: string)
    ensures |r| == |s|
    ensures forall i :: 0 <= i < |s| && 'A' <= s[i] <= 'Z' ==> r[i] as int == s[i] as int + ('a' as int - 'A' as int)
    ensures forall i :: 0 <= i < |s| && !('A' <= s[i] <= 'Z') ==> r[i] == s[i]
  {
    seq(|s|, i requires 0 <= i < |s| => LowerChar(s[i]))
  }

  /** Length of the longest prefix of `s` that holds no whitespace. */
  function WordLength(s: string): (n: nat)
    ensures n <= |s|
    ensures NoSpace(s[..n])
    ensures n < |s| ==> IsSpace(s[n])
  {
    if s == [] || IsSpace(s[0]) then 0 else 1 + WordLength(s[1..])
  }

  /** `s.split()`: the maximal runs of non-whitespace characters, in order. */
  function Words(s: string): (ws: seq<string>)
    ensures forall i :: 0 <= i < |ws| ==> ws[i] != [] && NoSpace(ws[i])
    decreases |s|
  {
    if s == [] then []
    else if IsSpace(s[0]) then Words(s[1..])
    else
      var n := WordLength(s);
      [s[..n]] + Words(s[n..])
  }

  /** Concatenation of a list of strings (Python's "".join). */
  function Concat(ws: seq<string>): string
  {
    if ws == [] then [] else ws[0] + Concat(ws[1..])
  }

  /** `s` with every whitespace character removed. */
  function Strip(s: string): string
  {
    if s == [] then [] else (if IsSpace(s[0]) then [] else [s[0]]) + Strip(s[1..])
  }

  /** `" ".join(ws)` */
  function Unwords(ws: seq<string>): string
  {
    if ws == [] then [] else if |ws| == 1 then ws[0] else ws[0] + " " + Unwords(ws[1..])
  }

  lemma {:induction false} WordLengthOfWord(w: string, rest: string)
    requires NoSpace(w)
    requires rest == [] || IsSpace(rest[0])
    ensures WordLength(w + rest) == |w|
  {
    if w == [] {
      assert w + rest == rest;
    } else {
      WordLengthOfWord(w[1..], rest);
      assert (w + rest)[1..] == w[1..] + rest;
    }
  }

  /** Splitting undoes joining with single spaces: every run of non-whitespace
      is one whole word, never cut in two. */
  lemma {:induction false} WordsOfUnwords(ws: seq<string>)
    requires forall i :: 0 <= i < |ws| ==> ws[i] != [] && NoSpace(ws[i])
    ensures Words(Unwords(ws)) == ws
  {
    if ws == [] {
    } else if |ws| == 1 {
      var w := ws[0];
      WordLengthOfWord(w, []);
      assert w + [] == w;
      assert w[|w|..] == [];
    } else {
      var w := ws[0];
      var rest := " " + Unwords(ws[1..]);
      var s := w + rest;
      assert Unwords(ws) == s;
      WordLengthOfWord(w, rest);
      WordsOfUnwords(ws[1..]);
      assert s[..|w|] == w && s[|w|..] == rest;
      assert rest[1..] == Unwords(ws[1..]);
      assert Words(rest) == Words(Unwords(ws[1..]));
    }
  }

  /** A single word splits to itself. */
  lemma WordsOfWord(w: string)
    requires w != [] && NoSpace(w)
    ensures Words(w) == [w]
  {
    WordLengthOfWord(w, []);
    assert w + [] == w;
    assert w[|w|..] == [];
  }

  /** Leading whitespace of any kind and length is skipped. */
  lemma {:induction false} WordsAfterSpace(sp: string, rest: string)
    requires AllSpace(sp)
    ensures Words(sp + rest) == Words(rest)
    decreases |sp|
  {
    if sp == [] {
      assert sp + rest == rest;
    } else {
      assert IsSpace(sp[0]);
      assert (sp + rest)[1..] == sp[1..] + rest;
      WordsAfterSpace(sp[1..], rest);
    }
  }

  /** A word ends at the first whitespace character of any kind, and the run
      of whitespace after it separates it from the rest: with WordsOfWord and
      WordsAfterSpace this fixes `split()` on every input. */
  lemma WordsOfWordThenSpace(w: string, sp: string, rest: string)
    requires w != [] && NoSpace(w)
    requires sp != [] && AllSpace(sp)
    ensures Words(w + sp + rest) == [w] + Words(rest)
  {
    var s := w + (sp + rest);
    assert w + sp + rest == s;
    assert IsSpace((sp + rest)[0]);
    WordLengthOfWord(w, sp + rest);
    assert s[..|w|] == w && s[|w|..] == sp + rest;
    WordsAfterSpace(sp, rest);
  }

  /** Three words separated by runs of any whitespace split into those three words. */
  lemma WordsOfThree(w1: string, sp1: string, w2: string, sp2: string, w3: string)
    requires w1 != [] && NoSpace(w1) && w2 != [] && NoSpace(w2) && w3 != [] && NoSpace(w3)
    requires sp1 != [] && AllSpace(sp1) && sp2 != [] && AllSpace(sp2)
    ensures Words(w1 + sp1 + (w2 + sp2 + w3)) == [w1, w2, w3]
  {
    WordsOfWord(w3);
    WordsOfWordThenSpace(w2, sp2, w3);
    WordsOfWordThenSpace(w1, sp1, w2 + sp2 + w3);
  }

  /** `"a\tb\n c".split()` gives the three words, whatever whitespace separates them. */
  lemma WordsOfMixedWhitespace()
    ensures Words(['a', '\t', 'b', '\n', ' ', 'c']) == [['a'], ['b'], ['c']]
  {
    var a, b, c: string := ['a'], ['b'], ['c'];
    var tab, nl: string := ['\t'], ['\n', ' '];
    assert NoSpace(a) && NoSpace(b) && NoSpace(c);
    assert AllSpace(tab) && AllSpace(nl);
    WordsOfThree(a, tab, b, nl, c);
    assert a + tab + (b + nl + c) == ['a', '\t', 'b', '\n', ' ', 'c'];
  }

  /** `set(text.lower().split())`. */
  function WordSet(text: string): set<string>
  {
    set w | w in Words(Lower(text))
  }

  /** The word set of a text that lowercases to a single word. */
  lemma WordSetOfOne(text: string, w: string)
    requires Lower(text) == w && w != [] && NoSpace(w)
    ensures WordSet(text) == {w}
  {
    assert Unwords([w]) == w;
    WordsOfUnwords([w]);
  }

  /** The word set of a text that lowercases to two words and one space. */
  lemma WordSetOfTwo(text: string, first: string, second: string)
    requires Lower(text) == first + " " + second
    requires first != [] && NoSpace(first) && second != [] && NoSpace(second)
    ensures WordSet(text) == {first, second}
  {
    assert Unwords([first, second]) == first + " " + second;
    WordsOfUnwords([first, second]);
  }

  /** Lowercasing twice is lowercasing once. */
  lemma LowerIdempotent(s: string)
    ensures Lower(Lower(s)) == Lower(s)
  {
    var l := Lower(s);
    forall i | 0 <= i < |s|
      ensures Lower(l)[i] == l[i]
    {
      assert !('A' <= l[i] <= 'Z');
    }
  }

  /** The word set ignores ASCII case: a text and its lowercased form have the same words. */
  lemma WordSetIgnoresCase(text: string)
    ensures WordSet(Lower(text)) == WordSet(text)
  {
    LowerIdempotent(text);
  }

  /** `_calculate_word_overlap`: the number of distinct words both texts hold. */
  function WordOverlap(text1: string, text2: string): nat
  {
    |WordSet(text1) * WordSet(text2)|
  }

  /** The overlap is at most the number of distinct words of either text. */
  lemma OverlapBounded(text1: string, text2: string)
    ensures WordOverlap(text1, text2) <= |WordSet(text1)|
    ensures WordOverlap(text1, text2) <= |WordSet(text2)|
  {
    var common := WordSet(text1) * WordSet(text2);
    SubsetCardinality(common, WordSet(text1));
    SubsetCardinality(common, WordSet(text2));
  }

  lemma SubsetCardinality<T>(a: set<T>, b: set<T>)
    requires a <= b
    ensures |a| <= |b|
  {
    assert b == a + (b - a);
  }

  /** Splitting loses only whitespace: the words, put back together, are the
      non-whitespace characters of the text in their original order. */
  lemma {:induction false} WordsKeepText(s: string)
    ensures Concat(Words(s)) == Strip(s)
    decreases |s|
  {
    if s == [] {
    } else if IsSpace(s[0]) {
      WordsKeepText(s[1..]);
    } else {
      var n := WordLength(s);
      WordsKeepText(s[n..]);
      StripNoSpace(s[..n]);
      StripAppend(s[..n], s[n..]);
      assert s[..n] + s[n..] == s;
    }
  }

  lemma {:induction false} StripNoSpace(s: string)
    requires NoSpace(s)
    ensures Strip(s) == s
  {
    if s != [] {
      StripNoSpace(s[1..]);
    }
  }

  lemma {:induction false} StripAllSpace(s: string)
    ensures Strip(s) == [] <==> AllSpace(s)
  {
    if s != [] {
      StripAllSpace(s[1..]);
      if !IsSpace(s[0]) {
        assert Strip(s)[0] == s[0];
      }
    }
  }

  lemma {:induction false} StripAppend(a: string, b: string)
    ensures Strip(a + b) == Strip(a) + Strip(b)
  {
    if a == [] {
      assert a + b == b;
    } else {
      var ab := a + b;
      var head: string := if IsSpace(a[0]) then [] else [a[0]];
      StripAppend(a[1..], b);
      assert ab[0] == a[0] && ab[1..] == a[1..] + b;
      calc {
        Strip(ab);
        head + Strip(a[1..] + b);
        head + (Strip(a[1..]) + Strip(b));
        { assert head + (Strip(a[1..]) + Strip(b)) == (head + Strip(a[1..])) + Strip(b); }
        (head + Strip(a[1..])) + Strip(b);
        Strip(a) + Strip(b);
      }
    }
  }

  lemma {:induction false} ConcatEmpty(ws: seq<string>)
    requires forall i :: 0 <= i < |ws| ==> ws[i] != []
    ensures Concat(ws) == [] <==> ws == []
  {
    if ws != [] {
      assert Concat(ws)[0] == ws[0][0];
    }
  }

  /** A text yields no words exactly when it is empty or all whitespace. */
  lemma WordsEmpty(s: string)
    ensures Words(s) == [] <==> AllSpace(s)
  {
    WordsKeepText(s);
    StripAllSpace(s);
    ConcatEmpty(Words(s));
  }

  /** Python applies lower() before split(); lowercasing keeps whitespace where it is. */
  lemma LowerAllSpace(s: string)
    ensures AllSpace(Lower(s)) == AllSpace(s)
  {
  }

  /** The overlap of a text with an empty or all-whitespace text is 0. */
  lemma OverlapWithBlank(text1: string, text2: string)
    requires AllSpace(text1) || AllSpace(text2)
    ensures WordOverlap(text1, text2) == 0
  {
    LowerAllSpace(text1);
    LowerAllSpace(text2);
    WordsEmpty(Lower(text1));
    WordsEmpty(Lower(text2));
    if AllSpace(text1) {
      assert WordSet(text1) == {};
    } else {
      assert WordSet(text2) == {};
    }
  }

  /** The score does not depend on the order of its arguments. */
  lemma OverlapSymmetric(text1: string, text2: string)
    ensures WordOverlap(text1, text2) == WordOverlap(text2, text1)
  {
    assert WordSet(text1) * WordSet(text2) == WordSet(text2) * WordSet(text1);
  }

  /** The score ignores ASCII case in either text. */
  lemma OverlapIgnoresCase(text1: string, text2: string)
    ensures WordOverlap(Lower(text1), Lower(text2)) == WordOverlap(text1, text2)
  {
    WordSetIgnoresCase(text1);
    WordSetIgnoresCase(text2);
  }

  /** Repeated words count once: a text overlaps itself in its number of distinct words. */
  lemma OverlapSelf(text: string)
    ensures WordOverlap(text, text) == |WordSet(text)|
  {
    assert WordSet(text) * WordSet(text) == WordSet(text);
  }
}
