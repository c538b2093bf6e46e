/** The server name as it is put into a Discord message. */
module ServerName {
  import opened Text

  const WIDTH_LIMIT: nat := 64
  const ZERO_WIDTH_SPACE: char := '\U{200B}'

  predicate IsControl(c: char) { c <= '\U{1F}' || '\U{7F}' <= c <= '\U{9F}' }

  predicate IsBidiOverride(c: char) { '\U{202A}' <= c <= '\U{202E}' || '\U{2066}' <= c <= '\U{2069}' }

  function Plain(c: char): char { if IsControl(c) || IsBidiOverride(c) then ' ' else c }

  /** How one character of the name is written out. */
  function Written(c: char): string { if c == '@' then ['@', ZERO_WIDTH_SPACE] else [Plain(c)] }

  function Render(name: string): string {
    if name == [] then [] else Render(name[..|name| - 1]) + Written(name[|name| - 1])
  }

  /** Control characters and marks that turn the writing direction: U+202A to U+202E and U+2066 to U+2069. */
  ghost predicate Hidden(c: char) {
    var code := c as int;
    code < 32 || 127 <= code < 160 || code in {8234, 8235, 8236, 8237, 8238, 8294, 8295, 8296, 8297}
  }

  /** What is written for a name, character by character. */
  lemma RenderMeans(name: string, c: char)
    ensures Render([]) == []
    ensures Render(name + [c]) ==
      Render(name) + if c == '@' then "@\U{200B}" else if Hidden(c) then " " else [c]
  {
    assert (name + [c])[..|name|] == name;
  }

  /** The longest prefix whose rendering fits. */
  ghost predicate LongestFitting(name: string, prefix: string) {
    && prefix <= name && |Render(prefix)| <= 64
    && forall n | |prefix| < n <= |name| :: |Render(name[..n])| > 64
  }

  /** Every '@' has its zero-width space. */
  predicate Defused(s: string) {
    forall i | 0 <= i < |s| && s[i] == '@' :: i + 1 < |s| && s[i + 1] == '\U{200B}'
  }

  ghost predicate Printable(s: string) { forall i | 0 <= i < |s| :: !Hidden(s[i]) }

  lemma {:induction false} RenderGrows(name: string, m: nat, n: nat)
    requires m <= n <= |name|
    ensures |Render(name[..m])| <= |Render(name[..n])|
  {
    if m < n {
      RenderGrows(name, m, n - 1);
      assert name[..n][..n - 1] == name[..n - 1];
    }
  }

  /** Rendering leaves nothing that Discord could read as a mention. */
  lemma {:induction false} RenderSafe(name: string)
    ensures Defused(Render(name)) && Printable(Render(name))
  {
    if name != [] {
      RenderSafe(name[..|name| - 1]);
    }
  }

  lemma TrimStartKeepsSafe(s: string)
    requires Defused(s) && Printable(s)
    ensures Defused(TrimStart(s)) && Printable(TrimStart(s))
  {
    var r, n := TrimStart(s), Leading(s);
    assert forall i | 0 <= i < |r| :: r[i] == s[n + i];
  }

  /** Trimming cannot separate an '@' from its zero-width space, which is not white space. */
  lemma TrimEndKeepsSafe(s: string)
    requires Defused(s) && Printable(s)
    ensures Defused(TrimEnd(s)) && Printable(TrimEnd(s))
  {
    var r := TrimEnd(s);
    CutSpaceExactly(s, |s|);
    assert forall i | 0 <= i < |r| :: r[i] == s[i];
    forall i | 0 <= i < |r| && r[i] == '@' ensures i + 1 < |r| && r[i + 1] == ZERO_WIDTH_SPACE {
      assert s[i + 1] == ZERO_WIDTH_SPACE && !IsWhitespace(s[i + 1]);
    }
  }

  /** Writes characters until the next one would not fit, and trims the result. */
  method SafeServerName(name: string) returns (safe: string)
    ensures |safe| <= 64 && Defused(safe) && Printable(safe)
    ensures exists prefix :: LongestFitting(name, prefix) && safe == Trim(Render(prefix))
  {
    var written := "";
    var count := 0;
    var i := 0;
    while i < |name|
      invariant 0 <= i <= |name| && written == Render(name[..i]) && count == |written| <= WIDTH_LIMIT
    {
      var character := Plain(name[i]);
      var width := if character == '@' then 2 else 1;
      assert name[..i + 1][..i] == name[..i];
      assert |Render(name[..i + 1])| == count + width;
      if count + width > WIDTH_LIMIT {
        break;
      }
      if character == '@' {
        written := written + ['@', ZERO_WIDTH_SPACE];
      } else {
        written := written + [character];
      }
      count := count + width;
      i := i + 1;
    }
    forall n | i < n <= |name| ensures |Render(name[..n])| > WIDTH_LIMIT {
      RenderGrows(name, i + 1, n);
    }
    assert LongestFitting(name, name[..i]);
    RenderSafe(name[..i]);
    TrimStartKeepsSafe(written);
    TrimEndKeepsSafe(TrimStart(written));
    safe := Trim(written);
  }
}
