/** Glob patterns over paths: `**`, `*`, `?`, character classes and literal characters. */
module Glob {

  // ----- patterns

  datatype Token = AnyPath | AnyName | OneChar | Class(body: string) | Literal(c: char)

  /** The position of the first `]` from `i` on, or the length. */
  function FirstBracket(s: string, i: nat): (p: nat)
    requires i <= |s|
    ensures i <= p <= |s| && (p < |s| ==> s[p] == ']') && forall k :: i <= k < p ==> s[k] != ']'
    decreases |s| - i
  {
    if i == |s| || s[i] == ']' then i else FirstBracket(s, i + 1)
  }

  /** Where the class that opens the pattern is closed; a bracket or dash right after the opening is an item. */
  function ClassEnd(pattern: string): (p: nat)
    requires pattern != "" && pattern[0] == '['
    ensures 1 <= p <= |pattern| && (p < |pattern| ==> 2 <= p && pattern[p] == ']')
  {
    FirstBracket(pattern, if |pattern| > 1 && (pattern[1] == ']' || pattern[1] == '-') then 2 else 1)
  }

  /** What a pattern means; a class that is never closed is a literal bracket. */
  function Tokens(pattern: string): seq<Token>
    decreases |pattern|
  {
    if pattern == "" then []
    else if |pattern| > 1 && pattern[0] == '*' && pattern[1] == '*' then [AnyPath] + Tokens(pattern[2..])
    else if pattern[0] == '*' then [AnyName] + Tokens(pattern[1..])
    else if pattern[0] == '?' then [OneChar] + Tokens(pattern[1..])
    else if pattern[0] == '[' && ClassEnd(pattern) < |pattern| then
      [Class(pattern[1..ClassEnd(pattern)])] + Tokens(pattern[ClassEnd(pattern) + 1..])
    else [Literal(pattern[0])] + Tokens(pattern[1..])
  }

  // ----- character classes

  datatype Range = Range(lo: char, hi: char)

  /** Whether the platform's char is signed; either way is allowed. */
  const CHAR_IS_SIGNED: bool

  /** The value of a byte when it is compared as a char. */
  function Rank(c: char): int {
    if CHAR_IS_SIGNED && 0x80 <= c as int < 0x100 then c as int - 0x100 else c as int
  }

  predicate InRange(c: char, r: Range) {
    Rank(r.lo) <= Rank(c) <= Rank(r.hi)
  }

  /** Single characters, and ranges written with a dash between two characters. */
  function Ranges(items: string): seq<Range>
    decreases |items|
  {
    if items == "" then []
    else if |items| > 2 && items[1] == '-' && items[2] != ']' then [Range(items[0], items[2])] + Ranges(items[3..])
    else [Range(items[0], items[0])] + Ranges(items[1..])
  }

  predicate Negated(body: string) {
    body != "" && body[0] == '!'
  }

  /** A bracket or dash in the first place stands for itself. */
  function Items(body: string): seq<Range> {
    var items := if Negated(body) then body[1..] else body;
    if items != "" && (items[0] == ']' || items[0] == '-') then [Range(items[0], items[0])] + Ranges(items[1..])
    else Ranges(items)
  }

  predicate InSome(c: char, ranges: seq<Range>) {
    exists i :: 0 <= i < |ranges| && InRange(c, ranges[i])
  }

  predicate InClass(c: char, body: string) {
    InSome(c, Items(body)) != Negated(body)
  }

  // ----- what a pattern accepts

  predicate Fits(t: Token, piece: string) {
    match t
    case AnyPath => true
    case AnyName => '/' !in piece
    case OneChar => |piece| == 1 && piece[0] != '/'
    case Class(body) => |piece| == 1 && InClass(piece[0], body)
    case Literal(c) => piece == [c]
  }

  function Join(pieces: seq<string>): string {
    if pieces == [] then "" else pieces[0] + Join(pieces[1..])
  }

  ghost predicate Pieces(tokens: seq<Token>, pieces: seq<string>, s: string) {
    |pieces| == |tokens| && Join(pieces) == s && forall i :: 0 <= i < |tokens| ==> Fits(tokens[i], pieces[i])
  }

  /** The text splits into consecutive pieces, one for each token. */
  ghost predicate Accepts(tokens: seq<Token>, s: string) {
    exists pieces :: Pieces(tokens, pieces, s)
  }

  lemma AcceptsNothing(s: string)
    ensures Accepts([], s) <==> s == ""
  {
    if s == "" {
      assert Pieces([], [], s);
    }
  }

  lemma AcceptsMore(t: Token, tokens: seq<Token>, s: string, k: nat)
    requires k <= |s| && Fits(t, s[..k]) && Accepts(tokens, s[k..])
    ensures Accepts([t] + tokens, s)
  {
    var pieces :| Pieces(tokens, pieces, s[k..]);
    var all := [s[..k]] + pieces;
    assert all[1..] == pieces;
    assert Join(all) == s[..k] + s[k..] == s;
    assert Pieces([t] + tokens, all, s);
  }

  lemma AcceptsLess(t: Token, tokens: seq<Token>, s: string) returns (k: nat)
    requires Accepts([t] + tokens, s)
    ensures k <= |s| && Fits(t, s[..k]) && Accepts(tokens, s[k..])
  {
    var all := [t] + tokens;
    var pieces :| Pieces(all, pieces, s);
    k := |pieces[0]|;
    assert s == pieces[0] + Join(pieces[1..]);
    assert s[..k] == pieces[0] && s[k..] == Join(pieces[1..]);
    assert Fits(all[0], pieces[0]);
    forall i | 0 <= i < |tokens| ensures Fits(tokens[i], pieces[1..][i]) {
      assert Fits(all[i + 1], pieces[i + 1]);
    }
    assert Pieces(tokens, pieces[1..], s[k..]);
  }

  /** A token that stands for one character. */
  lemma AcceptsOne(t: Token, tokens: seq<Token>, s: string)
    requires t.OneChar? || t.Class? || t.Literal?
    ensures Accepts([t] + tokens, s) <==> s != "" && Fits(t, s[..1]) && Accepts(tokens, s[1..])
  {
    hide Accepts;
    if Accepts([t] + tokens, s) {
      var k := AcceptsLess(t, tokens, s);
      assert k == 1;
    } else if s != "" && Fits(t, s[..1]) && Accepts(tokens, s[1..]) {
      AcceptsMore(t, tokens, s, 1);
    }
  }

  lemma AcceptsPath(tokens: seq<Token>, s: string)
    ensures Accepts([AnyPath] + tokens, s) <==> Accepts(tokens, s) || (s != "" && Accepts([AnyPath] + tokens, s[1..]))
  {
    hide Accepts;
    if Accepts([AnyPath] + tokens, s) {
      var k := AcceptsLess(AnyPath, tokens, s);
      if k == 0 {
        assert s[0..] == s;
      } else {
        assert s[1..][k - 1..] == s[k..];
        AcceptsMore(AnyPath, tokens, s[1..], k - 1);
      }
    }
    if Accepts(tokens, s) {
      assert s[0..] == s;
      AcceptsMore(AnyPath, tokens, s, 0);
    }
    if s != "" && Accepts([AnyPath] + tokens, s[1..]) {
      var k := AcceptsLess(AnyPath, tokens, s[1..]);
      assert s[1..][k..] == s[k + 1..];
      AcceptsMore(AnyPath, tokens, s, k + 1);
    }
  }

  // ----- the matcher

  /** The text of a character array up to its terminator. */
  function CString(s: string): (t: string)
    ensures '\0' !in t && t <= s && (|t| < |s| ==> s[|t|] == '\0')
  {
    if s == "" || s[0] == '\0' then "" else [s[0]] + CString(s[1..])
  }

  method ClassMatch(c: char, body: string) returns (found: bool)
    ensures found <==> InClass(c, body)
  {
    hide InSome, Ranges, Items, InRange;
    var start, negated := 0, false;
    if |body| > 0 && body[0] == '!' {
      negated := true;
      start := 1;
    }
    FirstInClass(c, body);
    if start < |body| && (body[start] == ']' || body[start] == '-') {
      if body[start] == c {
        return !negated;
      }
      start := start + 1;
    }
    var matched := false;
    while start < |body|
      invariant start <= |body|
      invariant !matched && (InSome(c, Items(body)) <==> InSome(c, Ranges(body[start..])))
    {
      NextInClass(c, body, start);
      if start + 2 < |body| && body[start + 1] == '-' && body[start + 2] != ']' {
        if Rank(body[start]) <= Rank(c) <= Rank(body[start + 2]) {
          matched := true;
          break;
        }
        start := start + 3;
      } else {
        if body[start] == c {
          matched := true;
          break;
        }
        start := start + 1;
      }
    }
    if !matched {
      assert body[start..] == [];
      NoItem(c);
    }
    found := if negated then !matched else matched;
  }

  /** A bracket or dash in the first place, after a negation. */
  lemma FirstInClass(c: char, body: string)
    ensures var start := if Negated(body) then 1 else 0;
            InSome(c, Items(body))
            <==> if start < |body| && (body[start] == ']' || body[start] == '-') then
                   body[start] == c || InSome(c, Ranges(body[start + 1..]))
                 else InSome(c, Ranges(body[start..]))
  {
    hide InSome, Ranges;
    var start := if Negated(body) then 1 else 0;
    var items := body[start..];
    assert body[0..] == body;
    if start < |body| {
      assert items[1..] == body[start + 1..];
      FirstItem(c, Range(body[start], body[start]), Ranges(body[start + 1..]));
    }
  }

  /** A range, or a single character. */
  lemma NextInClass(c: char, body: string, start: nat)
    requires start < |body|
    ensures InSome(c, Ranges(body[start..]))
            <==> if start + 2 < |body| && body[start + 1] == '-' && body[start + 2] != ']' then
                   Rank(body[start]) <= Rank(c) <= Rank(body[start + 2]) || InSome(c, Ranges(body[start + 3..]))
                 else body[start] == c || InSome(c, Ranges(body[start + 1..]))
  {
    hide InSome;
    var rest := body[start..];
    if start + 2 < |body| && body[start + 1] == '-' && body[start + 2] != ']' {
      assert rest[3..] == body[start + 3..];
      FirstItem(c, Range(body[start], body[start + 2]), Ranges(body[start + 3..]));
    } else {
      assert rest[1..] == body[start + 1..];
      FirstItem(c, Range(body[start], body[start]), Ranges(body[start + 1..]));
    }
  }

  lemma FirstItem(c: char, item: Range, ranges: seq<Range>)
    ensures InSome(c, [item] + ranges) <==> InRange(c, item) || InSome(c, ranges)
  {
    var all := [item] + ranges;
    if InSome(c, ranges) {
      var i :| 0 <= i < |ranges| && InRange(c, ranges[i]);
      assert all[i + 1] == ranges[i];
    }
    if InRange(c, item) {
      assert all[0] == item;
    }
  }

  lemma NoItem(c: char)
    ensures !InSome(c, Ranges([]))
  {
  }

  method FindClassEnd(pattern: string) returns (end: nat)
    requires pattern != "" && pattern[0] == '['
    ensures end == ClassEnd(pattern)
  {
    end := 1;
    if end < |pattern| && (pattern[end] == ']' || pattern[end] == '-') {
      end := end + 1;
    }
    ghost var first := end;
    while end < |pattern| && pattern[end] != ']'
      invariant first <= end <= |pattern| && FirstBracket(pattern, first) == FirstBracket(pattern, end)
    {
      end := end + 1;
    }
  }

  /** Matching ends, and accepts exactly the texts that split into one piece for each token of the pattern. */
  method Match(pattern: string, s: string) returns (matched: bool)
    ensures matched <==> Accepts(Tokens(pattern), s)
    decreases |pattern| + |s|
  {
    hide Accepts, InClass;
    if |pattern| == 0 {
      AcceptsNothing(s);
      return |s| == 0;
    }
    if |pattern| > 1 && pattern[0] == '*' && pattern[1] == '*' {
      AcceptsPath(Tokens(pattern[2..]), s);
      matched := Match(pattern[2..], s);
      if matched || |s| == 0 {
        return;
      }
      matched := Match(pattern, s[1..]);
      return;
    }
    if pattern[0] == '*' {
      matched := MatchName(pattern, s);
      return;
    }
    if pattern[0] == '?' && |s| > 0 && s[0] != '/' {
      AcceptsOne(OneChar, Tokens(pattern[1..]), s);
      matched := Match(pattern[1..], s[1..]);
      return;
    }
    if pattern[0] == '[' {
      var end := FindClassEnd(pattern);
      if end < |pattern| {
        AcceptsOne(Class(pattern[1..end]), Tokens(pattern[end + 1..]), s);
        if |s| == 0 {
          return false;
        }
        matched := ClassMatch(s[0], pattern[1..end]);
        if matched {
          matched := Match(pattern[end + 1..], s[1..]);
        }
        return;
      }
      AcceptsOne(Literal('['), Tokens(pattern[1..]), s);
      if |s| > 0 && s[0] == '[' {
        matched := Match(pattern[1..], s[1..]);
        return;
      }
      return false;
    }
    AcceptsOne(if pattern[0] == '?' then OneChar else Literal(pattern[0]), Tokens(pattern[1..]), s);
    if |s| > 0 && pattern[0] == s[0] {
      matched := Match(pattern[1..], s[1..]);
      return;
    }
    return false;
  }

  /** The loop for a single star tries every slash-free beginning, the shortest first. */
  method MatchName(pattern: string, s: string) returns (matched: bool)
    requires pattern != "" && pattern[0] == '*' && !(|pattern| > 1 && pattern[1] == '*')
    ensures matched <==> Accepts(Tokens(pattern), s)
    decreases |pattern| + |s|, 0
  {
    hide Accepts;
    ghost var rest := Tokens(pattern[1..]);
    var i := 0;
    while i < |s| && s[i] != '/'
      invariant 0 <= i <= |s| && '/' !in s[..i]
      invariant forall k :: 0 <= k < i ==> !Accepts(rest, s[k..])
    {
      matched := Match(pattern[1..], s[i..]);
      if matched {
        AcceptsMore(AnyName, rest, s, i);
        return;
      }
      assert s[..i + 1] == s[..i] + [s[i]];
      i := i + 1;
    }
    assert forall k :: i < k <= |s| ==> s[..k][i] == '/';
    matched := Match(pattern[1..], s[i..]);
    if matched {
      AcceptsMore(AnyName, rest, s, i);
    } else if Accepts(Tokens(pattern), s) {
      ghost var k := AcceptsLess(AnyName, rest, s);
    }
  }

  method GlobMatch(pattern: string, str: string) returns (matched: bool)
    ensures matched <==> Accepts(Tokens(CString(pattern)), CString(str))
  {
    matched := Match(CString(pattern), CString(str));
  }

  // ----- what this means for whole patterns

  /** A pattern without special characters accepts itself only. */
  lemma {:induction false} LiteralPattern(pattern: string, s: string)
    requires forall i :: 0 <= i < |pattern| ==> pattern[i] !in "*?["
    ensures Accepts(Tokens(pattern), s) <==> s == pattern
    decreases |pattern|
  {
    hide Accepts;
    if pattern == "" {
      AcceptsNothing(s);
    } else {
      AcceptsOne(Literal(pattern[0]), Tokens(pattern[1..]), s);
      if s != "" {
        LiteralPattern(pattern[1..], s[1..]);
        assert s == [s[0]] + s[1..] && pattern == [pattern[0]] + pattern[1..];
      }
    }
  }

  // ----- patterns piece by piece

  predicate PlainText(s: string) {
    forall i :: 0 <= i < |s| ==> s[i] !in "*?["
  }

  /** Plain text in front of a pattern stands for itself. */
  lemma {:induction false} TextFirst(text: string, pattern: string, s: string)
    requires PlainText(text)
    ensures Accepts(Tokens(text + pattern), s) <==> text <= s && Accepts(Tokens(pattern), s[|text|..])
    decreases |text|
  {
    hide Accepts;
    if text == "" {
      assert text + pattern == pattern && s[0..] == s;
    } else {
      assert (text + pattern)[1..] == text[1..] + pattern;
      AcceptsOne(Literal(text[0]), Tokens(text[1..] + pattern), s);
      if s != "" {
        TextFirst(text[1..], pattern, s[1..]);
        assert s == [s[0]] + s[1..] && text == [text[0]] + text[1..];
        if text <= s {
          assert s[1..][|text[1..]|..] == s[|text|..];
        }
      }
    }
  }

  /** A question mark stands for one character that is not a slash. */
  lemma QuestionFirst(pattern: string, s: string)
    ensures Accepts(Tokens("?" + pattern), s) <==> s != "" && s[0] != '/' && Accepts(Tokens(pattern), s[1..])
  {
    hide Accepts;
    assert ("?" + pattern)[1..] == pattern;
    AcceptsOne(OneChar, Tokens(pattern), s);
  }

  /** A star stands for any characters except slashes. */
  lemma StarFirst(pattern: string, s: string)
    requires pattern == "" || pattern[0] != '*'
    ensures Accepts(Tokens("*" + pattern), s)
            <==> exists k :: 0 <= k <= |s| && '/' !in s[..k] && Accepts(Tokens(pattern), s[k..])
  {
    hide Accepts;
    assert ("*" + pattern)[1..] == pattern;
    assert Tokens("*" + pattern) == [AnyName] + Tokens(pattern);
    if Accepts(Tokens("*" + pattern), s) {
      var k := AcceptsLess(AnyName, Tokens(pattern), s);
    }
    forall k | 0 <= k <= |s| && '/' !in s[..k] && Accepts(Tokens(pattern), s[k..])
      ensures Accepts(Tokens("*" + pattern), s)
    {
      AcceptsMore(AnyName, Tokens(pattern), s, k);
    }
  }

  /** Two stars stand for any characters. */
  lemma TwoStarsFirst(pattern: string, s: string)
    ensures Accepts(Tokens("**" + pattern), s) <==> exists k :: 0 <= k <= |s| && Accepts(Tokens(pattern), s[k..])
  {
    hide Accepts;
    assert ("**" + pattern)[2..] == pattern;
    assert Tokens("**" + pattern) == [AnyPath] + Tokens(pattern);
    if Accepts(Tokens("**" + pattern), s) {
      var k := AcceptsLess(AnyPath, Tokens(pattern), s);
    }
    forall k | 0 <= k <= |s| && Accepts(Tokens(pattern), s[k..])
      ensures Accepts(Tokens("**" + pattern), s)
    {
      AcceptsMore(AnyPath, Tokens(pattern), s, k);
    }
  }

  /** A class is closed by the first bracket after its first item; unclosed, its opening bracket is plain text. */
  lemma ClassFirst(body: string, pattern: string, s: string)
    requires body != "" && forall i :: 1 <= i < |body| ==> body[i] != ']'
    ensures Accepts(Tokens("[" + body + "]" + pattern), s)
            <==> s != "" && InClass(s[0], body) && Accepts(Tokens(pattern), s[1..])
  {
    hide Accepts, InClass;
    var all := "[" + body + "]" + pattern;
    assert all[0] == '[' && all[|body| + 1] == ']' && all[1..|body| + 1] == body && all[|body| + 2..] == pattern;
    FirstBracketIs(all, if body[0] == ']' || body[0] == '-' then 2 else 1, |body| + 1);
    AcceptsOne(Class(body), Tokens(pattern), s);
  }

  lemma {:induction false} FirstBracketIs(s: string, i: nat, p: nat)
    requires i <= p < |s| && s[p] == ']' && forall k :: i <= k < p ==> s[k] != ']'
    ensures FirstBracket(s, i) == p
    decreases p - i
  {
    if i < p {
      FirstBracketIs(s, i + 1, p);
    }
  }

  lemma UnclosedClass(pattern: string, s: string)
    requires forall i :: 0 <= i < |pattern| ==> pattern[i] != ']'
    ensures Accepts(Tokens("[" + pattern), s) <==> s != "" && s[0] == '[' && Accepts(Tokens(pattern), s[1..])
  {
    hide Accepts;
    var all := "[" + pattern;
    assert all[1..] == pattern;
    AcceptsOne(Literal('['), Tokens(pattern), s);
  }

  // ----- classes

  /** An exclamation mark in front of items accepts the other characters. */
  lemma NegationComplements(c: char, items: string)
    requires !Negated(items)
    ensures InClass(c, "!" + items) <==> !InClass(c, items)
  {
    hide InSome;
    assert ("!" + items)[1..] == items;
  }

  /** Items without a dash or a bracket: single characters. */
  lemma {:induction false} SingleItems(c: char, items: string)
    requires '-' !in items && ']' !in items && !Negated(items)
    ensures InClass(c, items) <==> c in items
  {
    hide InSome, InRange;
    assert Items(items) == Ranges(items);
    SinglesAre(c, items);
  }

  lemma {:induction false} SinglesAre(c: char, items: string)
    requires '-' !in items && ']' !in items
    ensures InSome(c, Ranges(items)) <==> c in items
    decreases |items|
  {
    hide InSome;
    if items == "" {
      NoItem(c);
    } else {
      SinglesAre(c, items[1..]);
      FirstItem(c, Range(items[0], items[0]), Ranges(items[1..]));
      assert items == [items[0]] + items[1..];
      assert |items| > 2 ==> items[1] in items;
    }
  }

  /** A range in front of other items. */
  lemma RangeFirst(c: char, lo: char, hi: char, items: string)
    requires lo != '!' && lo != ']' && lo != '-' && hi != ']'
    requires !Negated(items) && (items == "" || (items[0] != ']' && items[0] != '-'))
    ensures InClass(c, [lo, '-', hi] + items) <==> Rank(lo) <= Rank(c) <= Rank(hi) || InClass(c, items)
  {
    hide InSome;
    var all := [lo, '-', hi] + items;
    assert all[3..] == items && Items(all) == Ranges(all) && Items(items) == Ranges(items);
    FirstItem(c, Range(lo, hi), Ranges(items));
  }

  /** A bracket or dash in the first place. */
  lemma FirstStandsForItself(c: char, first: char, items: string)
    requires first == ']' || first == '-'
    requires !Negated(items) && (items == "" || (items[0] != ']' && items[0] != '-'))
    ensures InClass(c, [first] + items) <==> c == first || InClass(c, items)
  {
    hide InSome;
    var all := [first] + items;
    assert all[1..] == items && Items(items) == Ranges(items);
    FirstItem(c, Range(first, first), Ranges(items));
  }
}
