/** The string operations of the Rust standard library that the models rest on. */
module Text {

  /** Unicode White_Space, which is what trim() removes. */
  predicate IsWhitespace(c: char) {
    var code := c as int;
    9 <= code <= 13 || code == 32 || code == 0x85 || code == 0xA0 || code == 0x1680 || 0x2000 <= code <= 0x200A
    || code == 0x2028 || code == 0x2029 || code == 0x202F || code == 0x205F || code == 0x3000
  }

  /** The first position from i on that is no white space. */
  function SkipSpace(s: string, i: nat): (n: nat)
    requires i <= |s|
    ensures i <= n <= |s|
    decreases |s| - i
  {
    if i < |s| && IsWhitespace(s[i]) then SkipSpace(s, i + 1) else i
  }

  /** The length of the first n characters without the white space at their end. */
  function CutSpace(s: string, n: nat): (m: nat)
    requires n <= |s|
    ensures m <= n
  {
    if n > 0 && IsWhitespace(s[n - 1]) then CutSpace(s, n - 1) else n
  }

  /** How many white-space characters come first. */
  function Leading(s: string): nat { SkipSpace(s, 0) }

  function TrimStart(s: string): string { s[Leading(s)..] }

  function TrimEnd(s: string): string { s[..CutSpace(s, |s|)] }

  function Trim(s: string): string { TrimEnd(TrimStart(s)) }

  /** Exactly the white space is skipped. */
  lemma {:induction false} SkipSpaceExactly(s: string, i: nat)
    requires i <= |s|
    ensures forall k | i <= k < SkipSpace(s, i) :: IsWhitespace(s[k])
    ensures SkipSpace(s, i) < |s| ==> !IsWhitespace(s[SkipSpace(s, i)])
    decreases |s| - i
  {
    if i < |s| && IsWhitespace(s[i]) {
      SkipSpaceExactly(s, i + 1);
    }
  }

  lemma {:induction false} CutSpaceExactly(s: string, n: nat)
    requires n <= |s|
    ensures forall k | CutSpace(s, n) <= k < n :: IsWhitespace(s[k])
    ensures CutSpace(s, n) > 0 ==> !IsWhitespace(s[CutSpace(s, n) - 1])
  {
    if n > 0 && IsWhitespace(s[n - 1]) {
      CutSpaceExactly(s, n - 1);
    }
  }

  function Lower(c: char): char { if 'A' <= c <= 'Z' then (c as int + 32) as char else c }

  /** ASCII lower case of the first n characters. */
  function LowerFirst(s: string, n: nat): (r: string)
    requires n <= |s|
    ensures |r| == n
  {
    if n == 0 then [] else LowerFirst(s, n - 1) + [Lower(s[n - 1])]
  }

  function Lowercase(s: string): string { LowerFirst(s, |s|) }

  lemma {:induction false} LowerFirstAt(s: string, n: nat, i: nat)
    requires i < n <= |s|
    ensures LowerFirst(s, n)[i] == Lower(s[i])
  {
    if i < n - 1 {
      LowerFirstAt(s, n - 1, i);
    }
  }

  predicate StartsWith(s: string, prefix: string) { |prefix| <= |s| && s[..|prefix|] == prefix }

  predicate EndsWith(s: string, suffix: string) { |suffix| <= |s| && s[|s| - |suffix|..] == suffix }

  lemma StartsWithIs(s: string, prefix: string)
    ensures StartsWith(s, prefix) <==> exists rest :: s == prefix + rest
  {
    if StartsWith(s, prefix) {
      assert s == prefix + s[|prefix|..];
    }
  }

  lemma EndsWithIs(s: string, suffix: string)
    ensures EndsWith(s, suffix) <==> exists front :: s == front + suffix
  {
    if EndsWith(s, suffix) {
      assert s == s[..|s| - |suffix|] + suffix;
    }
  }

  predicate IsDigit(c: char) { '0' <= c <= '9' }

  /** The same letter in either case, or the same character. */
  predicate SameLetter(c: char, d: char) {
    c == d || ('A' <= c <= 'Z' && d as int == c as int + 32) || ('A' <= d <= 'Z' && c as int == d as int + 32)
  }

  predicate SameName(s: string, t: string) { |s| == |t| && forall i | 0 <= i < |s| :: SameLetter(s[i], t[i]) }

  lemma LowerIsSame(c: char, d: char)
    ensures Lower(c) == Lower(d) <==> SameLetter(c, d)
    ensures Lower(c) == '/' <==> c == '/'
  {
  }

  lemma LowercaseIsSame(s: string, t: string)
    ensures Lowercase(s) == Lowercase(t) <==> SameName(s, t)
  {
    if |s| == |t| {
      forall i | 0 <= i < |s| ensures Lowercase(s)[i] == Lowercase(t)[i] <==> SameLetter(s[i], t[i]) {
        LowerFirstAt(s, |s|, i);
        LowerFirstAt(t, |t|, i);
        LowerIsSame(s[i], t[i]);
      }
      if Lowercase(s) == Lowercase(t) {
        assert forall i | 0 <= i < |s| :: SameLetter(s[i], t[i]);
      }
    }
  }

  lemma {:induction false} LowercaseAppend(s: string, t: string)
    ensures Lowercase(s + t) == Lowercase(s) + Lowercase(t)
  {
    forall i | 0 <= i < |s + t| ensures Lowercase(s + t)[i] == (Lowercase(s) + Lowercase(t))[i] {
      LowerFirstAt(s + t, |s + t|, i);
      if i < |s| {
        LowerFirstAt(s, |s|, i);
      } else {
        LowerFirstAt(t, |t|, i - |s|);
      }
    }
  }

  /** A string is the lower case of another one, letter by letter. */
  lemma LowerIs(s: string, t: string)
    requires |s| == |t| && forall i | 0 <= i < |s| :: Lower(s[i]) == t[i]
    ensures Lowercase(s) == t
  {
    forall i | 0 <= i < |s| ensures Lowercase(s)[i] == t[i] {
      LowerFirstAt(s, |s|, i);
    }
  }

  /** The characters that Unicode counts as white space. */
  const WHITE: string :=
    "\U{9}\U{A}\U{B}\U{C}\U{D}\U{20}\U{85}\U{A0}\U{1680}\U{2000}\U{2001}\U{2002}\U{2003}\U{2004}\U{2005}"
    + "\U{2006}\U{2007}\U{2008}\U{2009}\U{200A}\U{2028}\U{2029}\U{202F}\U{205F}\U{3000}"

  predicate White(c: char) { c in WHITE }

  lemma WhitespaceIs(c: char)
    ensures IsWhitespace(c) <==> White(c)
  {
    var code := c as int;
    if 9 <= code <= 13 {
      assert WHITE[code - 9] == c;
    } else if 0x2000 <= code <= 0x200A {
      assert WHITE[code - 0x2000 + 9] == c;
    } else if IsWhitespace(c) {
      assert WHITE[5] == '\U{20}' && WHITE[6] == '\U{85}' && WHITE[7] == '\U{A0}' && WHITE[8] == '\U{1680}';
      assert WHITE[20] == '\U{2028}' && WHITE[21] == '\U{2029}' && WHITE[22] == '\U{202F}' && WHITE[23] == '\U{205F}';
      assert WHITE[24] == '\U{3000}';
    }
  }

  predicate AllWhite(s: string) { forall i | 0 <= i < |s| :: White(s[i]) }

  /** Trimming takes all white space off both ends and nothing else. */
  lemma TrimMeans(s: string) returns (a: string, b: string)
    ensures s == a + Trim(s) + b && AllWhite(a) && AllWhite(b)
    ensures var t := Trim(s); t != "" ==> !White(t[0]) && !White(t[|t| - 1])
    ensures TrimStart(s) == Trim(s) + b
  {
    hide IsWhitespace, White;
    var n := Leading(s);
    var x := TrimStart(s);
    var m := CutSpace(x, |x|);
    SkipSpaceExactly(s, 0);
    CutSpaceExactly(x, |x|);
    a, b := s[..n], x[m..];
    forall i | 0 <= i < n ensures White(a[i]) {
      WhitespaceIs(s[i]);
    }
    forall i | 0 <= i < |b| ensures White(b[i]) {
      WhitespaceIs(x[m + i]);
    }
    if m > 0 {
      WhitespaceIs(x[m - 1]);
      WhitespaceIs(s[n]);
    }
  }

  predicate DecimalDigit(c: char) { c in "0123456789" }

  /** The number that the first n characters of a text of digits stand for, read from left to right. */
  function Value(s: string, n: nat): int
    requires n <= |s|
  {
    if n == 0 then 0 else 10 * Value(s, n - 1) + (s[n - 1] as int - '0' as int)
  }

  lemma {:induction false} ValueOfPrefix(s: string, t: string, n: nat)
    requires n <= |s|
    ensures Value(s + t, n) == Value(s, n)
  {
    if n > 0 {
      ValueOfPrefix(s, t, n - 1);
    }
  }
}
