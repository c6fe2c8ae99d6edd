/** What canonicalization keeps of a text: its words, up to case. */
module TextMeaning {
  import opened Text
  import opened Sorting

  lemma {:induction false} WordLengthStops(a: string, b: string)
    requires b == "" || IsSpace(b[0])
    ensures WordLength(a + b) == WordLength(a)
  {
    if a == "" {
      assert a + b == b;
    } else {
      assert (a + b)[0] == a[0] && (a + b)[1..] == a[1..] + b;
      WordLengthStops(a[1..], b);
    }
  }

  lemma FieldsStep(s: string)
    requires s != ""
    ensures IsSpace(s[0]) ==> Fields(s) == Fields(s[1..])
    ensures !IsSpace(s[0]) ==> WordLength(s) > 0 && Fields(s) == [s[..WordLength(s)]] + Fields(s[WordLength(s)..])
  {}

  lemma HeadAndRest(a: string, t: string, n: nat)
    requires 0 < n <= |a|
    ensures (a + t)[..n] == a[..n] && (a + t)[n..] == a[n..] + t && (a + t)[0] == a[0]
  {}

  lemma {:induction false} FieldsBreak(a: string, t: string)
    requires t == "" || IsSpace(t[0])
    ensures Fields(a + t) == Fields(a) + Fields(t)
    decreases |a|
  {
    if a == "" {
      assert a + t == t;
      assert Fields("") == [];
    } else {
      FieldsStep(a + t);
      FieldsStep(a);
      WordLengthStops(a, t);
      hide Fields, WordLength, IsSpace;
      var n := if IsSpace(a[0]) then 1 else WordLength(a);
      HeadAndRest(a, t, n);
      FieldsBreak(a[n..], t);
      assert [a[..n]] + (Fields(a[n..]) + Fields(t)) == [a[..n]] + Fields(a[n..]) + Fields(t);
    }
  }

  /** White space separates: the words around a blank are the words before it and the words after it. */
  lemma FieldsSplit(a: string, blank: char, b: string)
    requires IsSpace(blank)
    ensures Fields(a + [blank] + b) == Fields(a) + Fields(b)
  {
    FieldsStep([blank] + b);
    FieldsBreak(a, [blank] + b);
    hide Fields;
    assert a + [blank] + b == a + ([blank] + b) && ([blank] + b)[1..] == b;
  }

  lemma {:induction false} WordIsLong(w: string)
    requires forall i :: 0 <= i < |w| ==> !IsSpace(w[i])
    ensures WordLength(w) == |w|
  {
    if w != "" { WordIsLong(w[1..]); }
  }

  /** A text without white space is its own only word. */
  lemma FieldsOfWord(w: string)
    requires Word(w)
    ensures Fields(w) == [w]
  {
    WordIsLong(w);
    assert w[|w|..] == "" && w[..|w|] == w;
    assert Fields("") == [];
  }

  lemma {:induction false} FieldsOfJoin(words: seq<string>)
    requires forall w :: w in words ==> Word(w)
    ensures Fields(JoinWords(words)) == words
  {
    if |words| == 1 {
      FieldsOfWord(words[0]);
    } else if |words| > 1 {
      assert words[0] in words && forall w :: w in words[1..] ==> w in words;
      FieldsOfWord(words[0]);
      FieldsOfJoin(words[1..]);
      FieldsSplit(words[0], ' ', JoinWords(words[1..]));
      assert words[0] + " " + JoinWords(words[1..]) == words[0] + [' '] + JoinWords(words[1..]);
    }
  }

  lemma {:induction false} TrimLeftKeepsFields(s: string)
    ensures Fields(TrimLeft(s)) == Fields(s)
  {
    if s != "" && IsSpace(s[0]) { TrimLeftKeepsFields(s[1..]); }
  }

  lemma {:induction false} TrimRightKeepsFields(s: string)
    ensures Fields(TrimRight(s)) == Fields(s)
    decreases |s|
  {
    if s != "" && IsSpace(s[|s| - 1]) {
      var t := s[..|s| - 1];
      TrimRightKeepsFields(t);
      FieldsSplit(t, s[|s| - 1], "");
      assert t + [s[|s| - 1]] + "" == s;
    }
  }

  lemma SqueezeKeepsFields(s: string)
    ensures Fields(Squeeze(s)) == Fields(s)
  {
    TrimLeftKeepsFields(s);
    TrimRightKeepsFields(TrimLeft(s));
    FieldsAreWords(TrimSpace(s));
    FieldsOfJoin(Fields(TrimSpace(s)));
  }

  lemma FoldedParts(w: string, rest: string)
    ensures ToUpper(w + " " + rest) == ToUpper(w) + " " + ToUpper(rest) && ToLower(w + " " + rest) == ToLower(w) + " " + ToLower(rest)
  {
    assert UpperChar(' ') == ' ' && LowerChar(' ') == ' ';
    hide UpperChar, LowerChar;
  }

  lemma {:induction false} FoldedJoin(words: seq<string>)
    ensures ToUpper(JoinWords(words)) == JoinWords(Map(ToUpper, words)) && ToLower(JoinWords(words)) == JoinWords(Map(ToLower, words))
  {
    if |words| > 1 {
      hide ToUpper, ToLower;
      FoldedJoin(words[1..]);
      assert Map(ToUpper, words)[1..] == Map(ToUpper, words[1..]) && Map(ToLower, words)[1..] == Map(ToLower, words[1..]);
      FoldedParts(words[0], JoinWords(words[1..]));
    }
  }

  /** A canonical code has the words of the text it was made from, in capitals; so two texts have one
      canonical form exactly when they have the same words up to case, however they are spaced. */
  lemma CanonicalWords(s: string)
    ensures Fields(Canonical(s)) == Map(ToUpper, Fields(s)) && Fields(CanonicalAttribute(s)) == Map(ToLower, Fields(s))
    ensures Canonical(s) == JoinWords(Map(ToUpper, Fields(s))) && CanonicalAttribute(s) == JoinWords(Map(ToLower, Fields(s)))
  {
    TrimLeftKeepsFields(s);
    TrimRightKeepsFields(TrimLeft(s));
    FieldsAreWords(s);
    var words := Fields(s);
    FoldedJoin(words);
    forall w | w in Map(ToUpper, words) ensures Word(w) { FoldedWord(words, w, true); }
    forall w | w in Map(ToLower, words) ensures Word(w) { FoldedWord(words, w, false); }
    FieldsOfJoin(Map(ToUpper, words));
    FieldsOfJoin(Map(ToLower, words));
  }

  lemma FoldedWord(words: seq<string>, w: string, upper: bool)
    requires (forall v :: v in words ==> Word(v)) && w in Map(if upper then ToUpper else ToLower, words)
    ensures Word(w)
  {
    var i :| 0 <= i < |words| && (if upper then ToUpper(words[i]) else ToLower(words[i])) == w;
    assert words[i] in words;
  }

  lemma SameCanonicalIff(s: string, t: string)
    ensures Canonical(s) == Canonical(t) <==> Map(ToUpper, Fields(s)) == Map(ToUpper, Fields(t))
    ensures CanonicalAttribute(s) == CanonicalAttribute(t) <==> Map(ToLower, Fields(s)) == Map(ToLower, Fields(t))
  {
    CanonicalWords(s);
    CanonicalWords(t);
    hide Canonical, CanonicalAttribute, Fields, Map;
  }

  // ----- order and numerals -----

  /** The texts agree up to `i`, where the first ends or has the smaller byte. */
  predicate BreaksAt(a: string, b: string, i: int) {
    0 <= i < |b| && i <= |a| && a[..i] == b[..i] && (i == |a| || a[i] < b[i])
  }

  lemma {:induction false} LessBreaks(a: string, b: string) returns (i: nat)
    requires Less(a, b)
    ensures BreaksAt(a, b, i)
  {
    if a == "" || a[0] < b[0] {
      i := 0;
    } else {
      i := LessBreaks(a[1..], b[1..]);
      assert a[..i + 1] == [a[0]] + a[1..][..i] && b[..i + 1] == [b[0]] + b[1..][..i];
      i := i + 1;
    }
  }

  lemma {:induction false} BreakIsLess(a: string, b: string, i: nat)
    requires BreaksAt(a, b, i)
    ensures Less(a, b)
  {
    if i > 0 {
      assert a[0] == a[..i][0] && b[0] == b[..i][0];
      assert a[1..][..i - 1] == a[..i][1..] && b[1..][..i - 1] == b[..i][1..];
      BreakIsLess(a[1..], b[1..], i - 1);
    }
  }

  /** Byte order: the first difference decides, and a proper beginning comes first. */
  lemma LessMeans(a: string, b: string)
    ensures Less(a, b) <==> exists i :: BreaksAt(a, b, i)
  {
    hide Less, BreaksAt;
    if Less(a, b) { var i := LessBreaks(a, b); }
    if i :| BreaksAt(a, b, i) { BreakNonNegative(a, b, i); BreakIsLess(a, b, i); }
  }

  lemma BreakNonNegative(a: string, b: string, i: int)
    requires BreaksAt(a, b, i)
    ensures i >= 0
  {}

  /** The number a string of decimal digits stands for. */
  function Reading(s: string): int {
    if s == "" then 0 else 10 * Reading(s[..|s| - 1]) + (s[|s| - 1] as int - '0' as int)
  }

  /** Lengths and integers are written in decimal. */
  lemma {:induction false} DecimalReads(n: nat)
    ensures Reading(Decimal(n)) == n && forall c :: c in Decimal(n) ==> '0' <= c <= '9'
  {
    if n >= 10 {
      DecimalReads(n / 10);
      assert Decimal(n)[..|Decimal(n)| - 1] == Decimal(n / 10);
    } else {
      assert Decimal(n)[..0] == "";
      assert Reading("") == 0;
    }
  }
}
