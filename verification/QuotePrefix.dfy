/** When the conversion of a beginning of the input is a beginning of the whole conversion. */
module QuotePrefix {
  import opened JsonText
  import opened QuoteNormalizer

  /** The quoting of the input after its first `k` characters. */
  function ModeAt(s: string, k: nat): PyScan
    requires k <= |s|
  {
    PyText(PY_START, s[..k])
  }

  /** The beginning of the run of word characters before `k`. */
  function WordBegin(s: string, k: nat): (b: nat)
    requires k <= |s|
    ensures b <= k && WordStart(s, b)
    ensures forall j :: b <= j < k ==> WordChar(s[j])
  {
    if k > 0 && WordChar(s[k - 1]) then WordBegin(s, k - 1) else k
  }

  /** The cut falls between a backslash and a single quote inside a single-quoted string. */
  predicate CutsEscapedQuote(s: string, k: nat)
    requires k <= |s|
  {
    k < |s| && ModeAt(s, k).quote == Single && ModeAt(s, k).escaped && s[k] == '\''
  }

  /** The cut leaves a beginning of a literal of a word outside strings that is itself not one. */
  predicate CutsMisleadingWord(s: string, k: nat)
    requires k <= |s|
  {
    && ModeAt(s, k).quote == Outside
    && LiteralWord(s[WordBegin(s, k)..k])
    && !LiteralWord(s[WordBegin(s, k)..WordEnd(s, k)])
  }

  predicate SafeCut(s: string, k: nat)
    requires k <= |s|
  {
    !CutsEscapedQuote(s, k) && !CutsMisleadingWord(s, k)
  }

  /** Converting the beginning of the input gives a beginning of the whole conversion exactly for safe cuts. */
  lemma NormalizePrefixIff(s: string, k: nat)
    requires k <= |s|
    ensures Normalize(s[..k]) <= Normalize(s) <==> SafeCut(s, k)
  {
    if k == |s| {
      assert s[..k] == s;
    } else {
      PrefixFrom(s, k, 0, Outside);
    }
  }

  lemma WordEndUnique(s: string, i: nat, e: nat)
    requires i <= e <= |s| && (forall j :: i <= j < e ==> WordChar(s[j])) && (e < |s| ==> !WordChar(s[e]))
    ensures WordEnd(s, i) == e
    decreases e - i
  {
  }

  lemma WordBeginUnique(s: string, b: nat, k: nat)
    requires b <= k <= |s| && (forall j :: b <= j < k ==> WordChar(s[j])) && WordStart(s, b)
    ensures WordBegin(s, k) == b
  {
  }

  /** A word of the shortened input ends where it ends in the whole one, or at the cut. */
  lemma WordEndCut(s: string, k: nat, i: nat)
    requires i <= k <= |s|
    ensures WordEnd(s[..k], i) == if WordEnd(s, i) <= k then WordEnd(s, i) else k
  {
  }

  /** The word around position `i` is no longer open for conversion: it is over, or it is not converted in either input. */
  ghost predicate WordDecided(s: string, k: nat, i: nat, q: Quote)
    requires i <= k <= |s|
  {
    var b := WordBegin(s, i);
    b == i || q != Outside || WordEnd(s, b) == i || !LiteralWord(s[b..WordEnd(s[..k], b)])
  }

  /** Both conversions are about to treat position `i`, in the same quoting. */
  ghost predicate Aligned(s: string, k: nat, i: nat, q: Quote)
    requires i <= k <= |s|
  {
    ModeAt(s, i).quote == q && !ModeAt(s, i).escaped && WordDecided(s, k, i, q)
  }

  lemma {:induction false} PrefixFrom(s: string, k: nat, i: nat, q: Quote)
    requires i <= k < |s| && Aligned(s, k, i, q)
    ensures Convert(s[..k], i, q) <= Convert(s, i, q) <==> SafeCut(s, k)
    decreases k - i
  {
    hide Convert, UnitAt, SafeCut, Aligned;
    var t := s[..k];
    if i == k {
      CutAligned(s, k, q);
    } else {
      var u := UnitAt(s, i, q);
      ConvertSplits(s, i, q);
      ConvertSplits(t, i, q);
      if UnitAt(t, i, q) == u && i + u.len <= k {
        AlignedNext(s, k, i, q);
        PrefixFrom(s, k, i + u.len, u.next);
        PrefixCancel(u.text, Convert(t, i + u.len, u.next), Convert(s, i + u.len, u.next));
      } else if q == Outside {
        CutWord(s, k, i);
      } else {
        CutEscape(s, k, i, q);
      }
    }
  }

  lemma PrefixCancel(a: string, b: string, c: string)
    ensures a + b <= a + c <==> b <= c
  {
    if a + b <= a + c {
      assert (a + b)[|a|..] == b && (a + c)[|a|..] == c;
      assert (a + c)[..|a + b|] == a + b;
      assert (a + c)[..|a + b|][|a|..] == c[..|b|];
    }
    if b <= c {
      assert a + c == (a + b) + c[|b|..];
    }
  }

  /** When both conversions have reached the cut, the cut is safe. */
  lemma CutAligned(s: string, k: nat, q: Quote)
    requires k < |s| && Aligned(s, k, k, q)
    ensures SafeCut(s, k)
    ensures Convert(s[..k], k, q) == []
  {
  }

  /** The quoting after the unit at `i`. */
  lemma ModeAfterUnit(s: string, i: nat, q: Quote)
    requires i < |s| && ModeAt(s, i).quote == q && !ModeAt(s, i).escaped
    ensures var u := UnitAt(s, i, q);
            ModeAt(s, i + u.len).quote == u.next && (ModeAt(s, i + u.len).escaped ==> i + u.len == |s|)
  {
    var u := UnitAt(s, i, q);
    var py := ModeAt(s, i);
    UnitSimulates(s, i, Scan(py.depth, q != Outside, false), py);
    PyConcat(PY_START, s[..i], s[i..i + u.len]);
    assert s[..i] + s[i..i + u.len] == s[..i + u.len];
  }

  lemma AlignedNext(s: string, k: nat, i: nat, q: Quote)
    requires i < k < |s| && Aligned(s, k, i, q)
    requires UnitAt(s[..k], i, q) == UnitAt(s, i, q) && i + UnitAt(s, i, q).len <= k
    ensures Aligned(s, k, i + UnitAt(s, i, q).len, UnitAt(s, i, q).next)
  {
    ModeAfterUnit(s, i, q);
    if q == Outside {
      WordDecidedNext(s, k, i);
    } else {
      StringEndsAtQuote(s, i, q);
    }
  }

  /** Inside a string the quoting only changes with a quote. */
  lemma StringEndsAtQuote(s: string, i: nat, q: Quote)
    requires i < |s| && q != Outside
    ensures var u := UnitAt(s, i, q);
            u.next == Outside ==> !WordChar(s[i + u.len - 1])
  {
  }

  lemma WordDecidedNext(s: string, k: nat, i: nat)
    requires i < k < |s| && WordDecided(s, k, i, Outside)
    requires OutsideUnit(s[..k], i) == OutsideUnit(s, i) && i + OutsideUnit(s, i).len <= k
    ensures WordDecided(s, k, i + OutsideUnit(s, i).len, OutsideUnit(s, i).next)
  {
    var next := i + OutsideUnit(s, i).len;
    if WordChar(s[next - 1]) {
      if OutsideUnit(s, i).len > 1 {
        WordBeginUnique(s, i, next);
      } else {
        var b := WordBegin(s, i);
        WordBeginUnique(s, b, next);
        WordEndCut(s, k, b);
        if b == i {
          WordDecidedFrom(s, k, i);
        }
      }
    }
  }

  /** A word treated by its first character alone is a single character, or it is not converted in either input. */
  lemma WordDecidedFrom(s: string, k: nat, i: nat)
    requires i < k < |s| && WordStart(s, i) && WordChar(s[i])
    requires OutsideUnit(s[..k], i) == OutsideUnit(s, i) && OutsideUnit(s, i).len == 1
    ensures WordEnd(s, i) == i + 1 || !LiteralWord(s[i..WordEnd(s[..k], i)])
  {
    WordEndCut(s, k, i);
    var e := WordEnd(s[..k], i);
    assert s[..k][i..e] == s[i..e];
    if LiteralWord(s[i..e]) {
      LiteralUnit(s[..k], i);
      LiteralTextDiffers(s[i], e - i);
      assert OutsideUnit(s, i).text[0] != s[i];
    }
  }

  /** A converted literal never starts like the unconverted one. */
  lemma LiteralTextDiffers(c: char, n: nat)
    requires LiteralStart(c) && 1 <= n <= |JsonLiteral(c)|
    ensures JsonLiteral(c)[..n][0] != c
  {
  }

  /** The cut falls into a word whose beginning is treated differently. */
  lemma CutWord(s: string, k: nat, i: nat)
    requires i < k < |s| && Aligned(s, k, i, Outside)
    requires !(UnitAt(s[..k], i, Outside) == UnitAt(s, i, Outside) && i + UnitAt(s, i, Outside).len <= k)
    ensures Convert(s[..k], i, Outside) <= Convert(s, i, Outside) <==> SafeCut(s, k)
  {
    var e := WordEnd(s, i);
    CutWordIsLiteral(s, k, i);
    WordBeginUnique(s, i, k);
    WordEndUnique(s, k, e);
    WordKeepsMode(s, i, k);
    CutLiteral(s, k, i);
    assert CutsMisleadingWord(s, k) <==> !LiteralWord(s[i..e]);
  }

  lemma CutWordIsLiteral(s: string, k: nat, i: nat)
    requires i < k < |s|
    requires !(OutsideUnit(s[..k], i) == OutsideUnit(s, i) && i + OutsideUnit(s, i).len <= k)
    ensures WordStart(s, i) && k < WordEnd(s, i) && LiteralWord(s[i..k])
  {
    hide OutsideUnit, LiteralWord, WordStart;
    if !(WordStart(s, i) && k < WordEnd(s, i) && LiteralWord(s[i..k])) {
      OutsideUnitSame(s, k, i);
    }
  }

  /** A unit is the same in both inputs unless the cut falls into a word that looks like a literal so far. */
  lemma OutsideUnitSame(s: string, k: nat, i: nat)
    requires i < k < |s| && !(WordStart(s, i) && k < WordEnd(s, i) && LiteralWord(s[i..k]))
    ensures OutsideUnit(s[..k], i) == OutsideUnit(s, i) && i + OutsideUnit(s, i).len <= k
  {
    hide JsonLiteral, LiteralWord, WordChar, WordEnd;
    WordEndCut(s, k, i);
    var t, e := s[..k], WordEnd(s, i);
    assert WordStart(t, i) == WordStart(s, i);
    if e <= k {
      assert t[i..e] == s[i..e];
    } else {
      assert t[i..k] == s[i..k];
      if !LiteralWord(s[i..k]) {
        LongerWord(s[i..k], s[i..e]);
      }
    }
  }

  /** A word that is no beginning of a literal does not become one by more characters. */
  lemma LongerWord(word: string, longer: string)
    requires word <= longer && word != [] && !LiteralWord(word)
    ensures !LiteralWord(longer)
  {
  }

  lemma LiteralConverts(s: string, i: nat)
    requires i < |s| && WordStart(s, i) && LiteralWord(s[i..WordEnd(s, i)])
    ensures var e := WordEnd(s, i);
            i < e && Convert(s, i, Outside) == JsonLiteral(s[i])[..e - i] + Convert(s, e, Outside)
  {
    hide Convert, UnitAt, LiteralWord, JsonLiteral, WordStart, WordEnd;
    LiteralUnit(s, i);
    ConvertSplits(s, i, Outside);
  }

  lemma LiteralUnit(s: string, i: nat)
    requires i < |s| && WordStart(s, i) && LiteralWord(s[i..WordEnd(s, i)])
    ensures var e := WordEnd(s, i);
            i < e && LiteralStart(s[i]) && e - i <= |JsonLiteral(s[i])|
            && UnitAt(s, i, Outside) == Unit(JsonLiteral(s[i])[..e - i], e - i, Outside)
  {
    hide Convert, SingleUnit, DoubleUnit;
    var word := s[i..WordEnd(s, i)];
    assert word[0] == s[i];
  }

  lemma OtherWordStays(s: string, i: nat)
    requires i < |s| && LiteralStart(s[i]) && !LiteralWord(s[i..WordEnd(s, i)])
    ensures Convert(s, i, Outside) != [] && Convert(s, i, Outside)[0] == s[i]
  {
  }

  /** Of the word cut at `k`, the beginning converts; the whole converts to more of the same, or does not convert. */
  lemma CutLiteral(s: string, k: nat, i: nat)
    requires i < k < |s| && WordStart(s, i) && k < WordEnd(s, i) && LiteralWord(s[i..k])
    ensures Convert(s[..k], i, Outside) <= Convert(s, i, Outside) <==> LiteralWord(s[i..WordEnd(s, i)])
  {
    var t, e, js := s[..k], WordEnd(s, i), JsonLiteral(s[i]);
    WordEndCut(s, k, i);
    assert t[i..k] == s[i..k];
    LiteralConverts(t, i);
    LiteralTextDiffers(s[i], k - i);
    if LiteralWord(s[i..e]) {
      LiteralConverts(s, i);
      PrefixOfLonger(js, k - i, e - i, Convert(s, e, Outside));
    } else {
      OtherWordStays(s, i);
    }
  }

  lemma PrefixOfLonger(js: string, m: nat, n: nat, rest: string)
    requires m <= n <= |js|
    ensures js[..m] <= js[..n] + rest
  {
  }

  lemma WordKeepsMode(s: string, i: nat, k: nat)
    requires i <= k <= |s| && !ModeAt(s, i).escaped && forall j :: i <= j < k ==> WordChar(s[j])
    ensures ModeAt(s, k) == ModeAt(s, i)
  {
    forall c | c in s[i..k]
      ensures Plain(c)
    {
      var j :| 0 <= j < k - i && s[i..k][j] == c;
      assert WordChar(s[i + j]);
    }
    PyPlain(ModeAt(s, i), s[i..k]);
    PyConcat(PY_START, s[..i], s[i..k]);
    assert s[..i] + s[i..k] == s[..k];
  }

  /** The cut falls between a backslash inside a string and the character after it. */
  lemma CutEscape(s: string, k: nat, i: nat, q: Quote)
    requires i < k < |s| && Aligned(s, k, i, q) && q != Outside
    requires !(UnitAt(s[..k], i, q) == UnitAt(s, i, q) && i + UnitAt(s, i, q).len <= k)
    ensures Convert(s[..k], i, q) <= Convert(s, i, q) <==> SafeCut(s, k)
  {
    var t := s[..k];
    assert i + 1 == k && s[i] == '\\';
    ConvertSplits(t, i, q);
    ConvertSplits(s, i, q);
    assert Convert(t, k, q) == [];
    assert ModeAt(s, k) == ModeAt(s, i).(escaped := true) by {
      PyConcat(PY_START, s[..i], [s[i]]);
      assert s[..i] + [s[i]] == s[..k];
      assert PyText(ModeAt(s, i), [s[i]]) == PyText(PyChar(ModeAt(s, i), s[i]), []) by {
        assert [s[i]][1..] == [];
      }
    }
    assert Convert(t, i, q) == ['\\'];
    var u := UnitAt(s, i, q);
    assert |u.text| > 0 && Convert(s, i, q)[0] == u.text[0];
    assert u.text[0] == if q == Single && s[k] == '\'' then '\'' else '\\';
  }
}
