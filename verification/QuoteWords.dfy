/** What the conversion makes of text without quotes: only whole words that begin a Python literal change. */
module QuoteWords {
  import opened QuoteNormalizer

  /** Where the word that holds position `k` begins. */
  function WordBegin(s: string, k: nat): (b: nat)
    requires k < |s|
    ensures b <= k && (forall j :: b <= j < k ==> WordChar(s[j])) && (b > 0 ==> !WordChar(s[b - 1]) || !WordChar(s[k]))
    ensures !WordChar(s[k]) ==> b == k
  {
    if k > 0 && WordChar(s[k]) && WordChar(s[k - 1]) then WordBegin(s, k - 1) else k
  }

  /** The word around position `k`. */
  function WordAt(s: string, k: nat): (word: string)
    requires k < |s|
  {
    s[WordBegin(s, k)..if WordChar(s[k]) then WordEnd(s, k) else k]
  }

  /** A non-empty beginning of a Python literal. */
  predicate BeginsLiteral(word: string) {
    word != "" && (word <= "True" || word <= "False" || word <= "None")
  }

  /** Character `j` of a word after the conversion. */
  function Translated(word: string, j: nat): char
    requires j < |word|
  {
    if word <= "True" then "true"[j] else if word <= "False" then "false"[j] else if word <= "None" then "null"[j] else word[j]
  }

  function CharAt(s: string, k: nat): char
    requires k < |s|
  {
    if WordChar(s[k]) then Translated(WordAt(s, k), k - WordBegin(s, k)) else s[k]
  }

  lemma {:induction false} SameEnd(s: string, i: nat, k: nat)
    requires i <= k <= |s| && forall j :: i <= j < k ==> WordChar(s[j])
    ensures WordEnd(s, i) == WordEnd(s, k)
    decreases k - i
  {
    if i < k {
      SameEnd(s, i + 1, k);
    }
  }

  lemma {:induction false} SameBegin(s: string, i: nat, k: nat)
    requires i <= k < |s| && WordChar(s[k]) && (forall j :: i <= j < k ==> WordChar(s[j]))
    ensures WordBegin(s, k) == WordBegin(s, i)
    decreases k - i
  {
    if i < k {
      SameBegin(s, i, k - 1);
    }
  }

  /** All positions of a word see the same word. */
  lemma SameWord(s: string, i: nat, k: nat)
    requires i <= k < |s| && WordChar(s[k]) && (forall j :: i <= j < k ==> WordChar(s[j]))
    ensures WordBegin(s, k) == WordBegin(s, i) && WordAt(s, k) == WordAt(s, i)
  {
    SameBegin(s, i, k);
    SameEnd(s, i, k);
  }

  predicate NoQuotes(s: string) {
    '\'' !in s && '\"' !in s
  }

  /** The conversion gets to this position: it is not inside a word that is converted as a whole. */
  predicate Reached(s: string, i: nat)
    requires i <= |s|
  {
    i < |s| && WordChar(s[i]) && WordBegin(s, i) < i ==> !BeginsLiteral(WordAt(s, i))
  }

  lemma LiteralWordIs(word: string)
    requires word != "" && LiteralStart(word[0])
    ensures LiteralWord(word) <==> BeginsLiteral(word)
    ensures LiteralWord(word) ==> forall j :: 0 <= j < |word| ==> JsonLiteral(word[0])[..|word|][j] == Translated(word, j)
  {
  }

  lemma NotLiteral(word: string, j: nat)
    requires j < |word| && !BeginsLiteral(word)
    ensures Translated(word, j) == word[j]
  {
  }

  lemma StartsLiteral(word: string)
    requires BeginsLiteral(word)
    ensures LiteralStart(word[0])
  {
  }

  /** A character that is copied. */
  lemma CopiedChar(s: string, i: nat)
    requires i < |s| && NoQuotes(s) && Reached(s, i)
    requires !(LiteralStart(s[i]) && WordStart(s, i) && LiteralWord(s[i..WordEnd(s, i)]))
    ensures CharAt(s, i) == s[i] && Reached(s, i + 1)
  {
    if WordChar(s[i]) {
      var word := WordAt(s, i);
      assert word[i - WordBegin(s, i)] == s[i];
      assert WordBegin(s, i) == i ==> word == s[i..WordEnd(s, i)];
      if WordBegin(s, i) == i && BeginsLiteral(word) {
        StartsLiteral(word);
        LiteralWordIs(word);
      }
      NotLiteral(word, i - WordBegin(s, i));
      if i + 1 < |s| && WordChar(s[i + 1]) {
        SameWord(s, i, i + 1);
      }
    }
  }

  /** A word that is converted as a whole. */
  lemma ConvertedWord(s: string, i: nat)
    requires i < |s| && LiteralStart(s[i]) && WordStart(s, i) && LiteralWord(s[i..WordEnd(s, i)])
    ensures i < WordEnd(s, i) <= i + |JsonLiteral(s[i])|
    ensures forall k :: i <= k < WordEnd(s, i) ==> CharAt(s, k) == JsonLiteral(s[i])[..WordEnd(s, i) - i][k - i]
    ensures Reached(s, WordEnd(s, i))
  {
    var word := s[i..WordEnd(s, i)];
    LiteralWordIs(word);
    forall k | i <= k < WordEnd(s, i)
      ensures CharAt(s, k) == JsonLiteral(s[i])[..WordEnd(s, i) - i][k - i]
    {
      SameWord(s, i, k);
    }
  }

  lemma {:induction false} ConvertsFrom(s: string, i: nat)
    requires i <= |s| && NoQuotes(s) && Reached(s, i)
    ensures |Convert(s, i, Outside)| == |s| - i
    ensures forall k :: i <= k < |s| ==> Convert(s, i, Outside)[k - i] == CharAt(s, k)
    decreases |s| - i
  {
    hide CharAt, Reached, LiteralWord, JsonLiteral, PythonLiteral, WordEnd, Convert;
    ConvertNothing(s);
    if i < |s| {
      assert s[i] in s;
      ConvertNext(s, i, Outside, "");
      assert forall t: string :: "" + t == t;
      if LiteralStart(s[i]) && WordStart(s, i) && LiteralWord(s[i..WordEnd(s, i)]) {
        ConvertedWord(s, i);
        ConvertsFrom(s, WordEnd(s, i));
      } else {
        CopiedChar(s, i);
        ConvertsFrom(s, i + 1);
      }
    }
  }

  /**
    Text without quotes keeps its length, and only words that begin True, False or None change, to the beginnings of true,
    false and null.
   */
  lemma OnlyLiteralsChange(s: string)
    requires NoQuotes(s)
    ensures |Normalize(s)| == |s| && forall k :: 0 <= k < |s| ==> Normalize(s)[k] == CharAt(s, k)
  {
    ConvertsFrom(s, 0);
  }
}
