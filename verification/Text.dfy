/** Strings as the catalog code sees them.  A `char` stands for one byte of a Go string, so
    `|s|` is `len([]byte(s))` and comparing characters is comparing bytes.  White space and
    letter case are the ASCII ones. */
module Text {

  predicate IsSpace(c: char) {
    c == ' ' || '\t' <= c <= '\r'
  }

  function UpperChar(c: char): char {
    if 'a' <= c <= 'z' then c - 'a' + 'A' else c
  }

  function LowerChar(c: char): char {
    if 'A' <= c <= 'Z' then c - 'A' + 'a' else c
  }

  /** strings.ToUpper */
  function ToUpper(s: string): (r: string)
    ensures |r| == |s| && forall i :: 0 <= i < |s| ==> r[i] == UpperChar(s[i])
  {
    seq(|s|, i requires 0 <= i < |s| => UpperChar(s[i]))
  }

  /** strings.ToLower */
  function ToLower(s: string): (r: string)
    ensures |r| == |s| && forall i :: 0 <= i < |s| ==> r[i] == LowerChar(s[i])
  {
    seq(|s|, i requires 0 <= i < |s| => LowerChar(s[i]))
  }

  /** strings.TrimSpace, in two halves */
  function TrimLeft(s: string): (r: string)
    ensures r != "" ==> !IsSpace(r[0])
  {
    if s != "" && IsSpace(s[0]) then TrimLeft(s[1..]) else s
  }

  function TrimRight(s: string): string {
    if s != "" && IsSpace(s[|s| - 1]) then TrimRight(s[..|s| - 1]) else s
  }

  function TrimSpace(s: string): string {
    TrimRight(TrimLeft(s))
  }

  /** Length of the leading run of non-space characters. */
  function WordLength(s: string): (n: nat)
    ensures n <= |s|
    ensures forall i :: 0 <= i < n ==> !IsSpace(s[i])
    ensures n < |s| ==> IsSpace(s[n])
  {
    if s == "" || IsSpace(s[0]) then 0 else 1 + WordLength(s[1..])
  }

  /** strings.Fields */
  function Fields(s: string): seq<string>
    decreases |s|
  {
    if s == "" then []
    else if IsSpace(s[0]) then Fields(s[1..])
    else var n := WordLength(s); [s[..n]] + Fields(s[n..])
  }

  /** strings.Join(words, " ") */
  function JoinWords(words: seq<string>): string {
    if |words| == 0 then ""
    else if |words| == 1 then words[0]
    else words[0] + " " + JoinWords(words[1..])
  }

  function Squeeze(s: string): string {
    JoinWords(Fields(TrimSpace(s)))
  }

  /** The code form of classes, families, types, units and option sets. */
  function Canonical(s: string): string {
    ToUpper(Squeeze(s))
  }

  /** The code form of characteristics. */
  function CanonicalAttribute(s: string): string {
    ToLower(Squeeze(s))
  }

  predicate Blank(s: string) {
    TrimSpace(s) == ""
  }

  // ----- what the canonical forms keep -----

  /** Single interior blanks only: what `Squeeze` produces and keeps. */
  predicate Clean(s: string) {
    forall i :: 0 <= i < |s| && IsSpace(s[i]) ==>
      s[i] == ' ' && 0 < i < |s| - 1 && !IsSpace(s[i - 1]) && !IsSpace(s[i + 1])
  }

  predicate Word(w: string) {
    w != "" && forall i :: 0 <= i < |w| ==> !IsSpace(w[i])
  }

  lemma {:induction false} FieldsAreWords(s: string)
    ensures forall w :: w in Fields(s) ==> Word(w)
    decreases |s|
  {
    if s == "" {
    } else if IsSpace(s[0]) {
      FieldsAreWords(s[1..]);
    } else {
      FieldsAreWords(s[WordLength(s)..]);
    }
  }

  lemma {:induction false} JoinedWordsAreClean(words: seq<string>)
    requires forall w :: w in words ==> Word(w)
    ensures Clean(JoinWords(words))
    ensures words != [] ==> JoinWords(words) != "" && !IsSpace(JoinWords(words)[0])
  {
    if |words| > 1 {
      JoinedWordsAreClean(words[1..]);
      var tail := JoinWords(words[1..]);
      var s := words[0] + " " + tail;
      assert s == JoinWords(words);
      forall i | 0 <= i < |s| && IsSpace(s[i])
        ensures s[i] == ' ' && 0 < i < |s| - 1 && !IsSpace(s[i - 1]) && !IsSpace(s[i + 1])
      {
        var n := |words[0]|;
        assert words[0] in words && words[1] in words;
        if i == n {
          assert s[i - 1] == words[0][n - 1] && s[i + 1] == tail[0];
        } else if i > n {
          assert s[i] == tail[i - n - 1] && s[i - 1] == tail[i - n - 2] && s[i + 1] == tail[i - n];
        }
      }
    } else if |words| == 1 {
      assert words[0] in words;
    }
  }

  lemma SqueezeIsClean(s: string)
    ensures Clean(Squeeze(s))
  {
    FieldsAreWords(TrimSpace(s));
    JoinedWordsAreClean(Fields(TrimSpace(s)));
  }

  lemma {:induction false} CleanFieldsJoin(s: string)
    requires Clean(s)
    ensures JoinWords(Fields(s)) == s
    decreases |s|
  {
    if s != "" {
      var n := WordLength(s);
      if n < |s| {
        var rest := s[n + 1..];
        assert s[n..][1..] == rest;
        forall i | 0 <= i < |rest| && IsSpace(rest[i])
          ensures rest[i] == ' ' && 0 < i < |rest| - 1 && !IsSpace(rest[i - 1]) && !IsSpace(rest[i + 1])
        {
          assert rest[i] == s[n + 1 + i];
        }
        CleanFieldsJoin(rest);
        assert Fields(s) == [s[..n]] + Fields(rest);
        assert s == s[..n] + " " + rest;
        assert rest != "" && Fields(rest) != [];
      } else {
        assert s[n..] == "" && s[..n] == s;
      }
    }
  }

  /** Squeezing a clean string changes nothing. */
  lemma CleanIsFixed(s: string)
    requires Clean(s)
    ensures Squeeze(s) == s
  {
    assert TrimSpace(s) == s;
    CleanFieldsJoin(s);
  }

  lemma FoldingKeepsClean(s: string)
    requires Clean(s)
    ensures Clean(ToUpper(s)) && Clean(ToLower(s))
  {
    assert forall c: char :: IsSpace(UpperChar(c)) <==> IsSpace(c);
    assert forall c: char :: IsSpace(LowerChar(c)) <==> IsSpace(c);
    assert forall c: char :: IsSpace(c) ==> UpperChar(c) == c && LowerChar(c) == c;
  }

  lemma SqueezeIdempotent(s: string)
    ensures Squeeze(Squeeze(s)) == Squeeze(s)
  {
    SqueezeIsClean(s);
    CleanIsFixed(Squeeze(s));
  }

  lemma CanonicalIdempotent(s: string)
    ensures Canonical(Canonical(s)) == Canonical(s)
  {
    SqueezeIsClean(s);
    FoldingKeepsClean(Squeeze(s));
    CleanIsFixed(ToUpper(Squeeze(s)));
    assert ToUpper(ToUpper(Squeeze(s))) == ToUpper(Squeeze(s));
  }

  lemma CanonicalAttributeIdempotent(s: string)
    ensures CanonicalAttribute(CanonicalAttribute(s)) == CanonicalAttribute(s)
  {
    SqueezeIsClean(s);
    FoldingKeepsClean(Squeeze(s));
    CleanIsFixed(ToLower(Squeeze(s)));
    assert ToLower(ToLower(Squeeze(s))) == ToLower(Squeeze(s));
  }

  lemma CanonicalFixed(s: string)
    requires Clean(s) && forall i :: 0 <= i < |s| ==> UpperChar(s[i]) == s[i]
    ensures Canonical(s) == s
  {
    CleanIsFixed(s);
    assert ToUpper(s) == s;
  }

  // ----- byte-wise order, as sort.Strings and < on Go strings use it -----

  /** A word without white space stays as it is. */
  lemma WordIsFixed(w: string)
    requires Word(w)
    ensures Squeeze(w) == w && !Blank(w)
  {
    CleanIsFixed(w);
    TrimmedWord(w);
  }

  lemma TrimmedWord(w: string)
    requires Word(w)
    ensures TrimSpace(w) == w
  {
    assert !IsSpace(w[0]) && !IsSpace(w[|w| - 1]);
  }

  lemma CapitalsAreFixed(s: string)
    requires forall c :: c in s ==> 'A' <= c <= 'Z'
    ensures Canonical(s) == s
  {
    forall i | 0 <= i < |s| ensures UpperChar(s[i]) == s[i] && !IsSpace(s[i]) { assert s[i] in s; }
    CanonicalFixed(s);
  }

  /** Single letters are canonical as they stand. */
  lemma CapitalLetter(l: char)
    requires 'A' <= l <= 'Z'
    ensures !Blank([l]) && Canonical([l]) == [l]
  {
    CanonicalFixed([l]);
  }

  lemma SmallLetter(l: char)
    requires 'a' <= l <= 'z'
    ensures CanonicalAttribute([l]) == [l]
  {
    CleanIsFixed([l]);
    assert ToLower([l]) == [l];
  }

  predicate Less(a: string, b: string)
    decreases |a|
  {
    if b == "" then false
    else if a == "" then true
    else a[0] < b[0] || (a[0] == b[0] && Less(a[1..], b[1..]))
  }

  predicate AtMost(a: string, b: string) {
    !Less(b, a)
  }

  lemma {:induction false} LessTransitive(a: string, b: string, c: string)
    requires Less(a, b) && Less(b, c)
    ensures Less(a, c)
    decreases |a|
  {
    if a != "" && a[0] == b[0] && b[0] == c[0] {
      LessTransitive(a[1..], b[1..], c[1..]);
    }
  }

  lemma {:induction false} LessIrreflexive(a: string)
    ensures !Less(a, a)
    decreases |a|
  {
    if a != "" { LessIrreflexive(a[1..]); }
  }

  lemma {:induction false} LessTotal(a: string, b: string)
    ensures Less(a, b) || a == b || Less(b, a)
    decreases |a|
  {
    if a != "" && b != "" && a[0] == b[0] {
      LessTotal(a[1..], b[1..]);
      assert a == [a[0]] + a[1..] && b == [b[0]] + b[1..];
    }
  }

  // ----- decimal numerals -----

  function Digit(d: nat): char
    requires d < 10
  {
    '0' + d as char
  }

  /** fmt.Sprintf("%d", n) */
  function Decimal(n: nat): (s: string)
    ensures s != "" && ':' !in s && '-' !in s
  {
    if n < 10 then [Digit(n)] else Decimal(n / 10) + [Digit(n % 10)]
  }

  lemma {:induction false} DecimalInjective(a: nat, b: nat)
    requires Decimal(a) == Decimal(b)
    ensures a == b
  {
    var s := Decimal(a);
    assert s[|s| - 1] == Digit(a % 10) && s[|s| - 1] == Digit(b % 10);
    if a >= 10 && b >= 10 {
      assert Decimal(a / 10) == s[..|s| - 1] == Decimal(b / 10);
      DecimalInjective(a / 10, b / 10);
    }
  }

  function Integer(n: int): string {
    if n < 0 then "-" + Decimal(-n) else Decimal(n)
  }

  // ----- "|"-joined keys -----

  function CutAt(s: string): (n: nat)
    ensures n <= |s| && '|' !in s[..n]
    ensures n < |s| ==> s[n] == '|'
  {
    if s == "" || s[0] == '|' then 0 else 1 + CutAt(s[1..])
  }

  /** parts[0] and parts[1] of strings.Split(s, "|") for an s that holds a "|" */
  function FirstPart(s: string): string {
    s[..CutAt(s)]
  }

  function SecondPart(s: string): string {
    var n := CutAt(s);
    if n < |s| then FirstPart(s[n + 1..]) else ""
  }

  lemma {:induction false} CutOfJoin(a: string, b: string)
    requires '|' !in a
    ensures CutAt(a + "|" + b) == |a|
  {
    var s := a + "|" + b;
    if a == "" {
      assert s[0] == '|';
    } else {
      CutOfJoin(a[1..], b);
      assert s[1..] == a[1..] + "|" + b;
    }
  }

  lemma {:induction false} CutOfPlain(a: string)
    requires '|' !in a
    ensures CutAt(a) == |a|
  {
    if a != "" { CutOfPlain(a[1..]); }
  }

  /** Splitting undoes joining when neither code holds the separator. */
  lemma PartsOfJoin(a: string, b: string)
    requires '|' !in a && '|' !in b
    ensures FirstPart(a + "|" + b) == a && SecondPart(a + "|" + b) == b
  {
    CutOfJoin(a, b);
    CutOfPlain(b);
    assert (a + "|" + b)[|a| + 1..] == b;
  }

  /** Joined keys determine their parts as soon as the left part holds no separator. */
  lemma JoinInjective(a: string, b: string, x: string, y: string)
    requires '|' !in a && '|' !in x
    requires a + "|" + b == x + "|" + y
    ensures a == x && b == y
  {
    CutOfJoin(a, b);
    CutOfJoin(x, y);
    var s := a + "|" + b;
    assert a == s[..|a|] && x == s[..|x|];
    assert b == s[|a| + 1..] && y == s[|x| + 1..];
  }
}
