/**
 What the rewriting of Geyser's configuration does, said of the text itself:
 which lines it sets, to what, and that the number it writes is the port.
 */
module CrossplayMeaning {
  import opened Options
  import opened Text
  import opened Crossplay

  // ---------------------------------------------------------------- the number

  /** Digits that read as n, with no needless zero in front. */
  predicate ReadsAs(s: string, n: nat) {
    && s != "" && (forall i | 0 <= i < |s| :: DecimalDigit(s[i]))
    && Value(s, |s|) == n && (|s| > 1 ==> s[0] != '0')
  }

  lemma DigitOf(n: nat)
    requires n < 10
    ensures DecimalDigit(('0' as int + n) as char)
  {
    assert "0123456789"[n] == ('0' as int + n) as char;
  }

  lemma {:induction false} DecimalStarts(n: nat)
    ensures Decimal(n) != "" && (n > 0 ==> Decimal(n)[0] != '0')
  {
    if n >= 10 {
      DecimalStarts(n / 10);
    }
  }

  /** The digits that are written read as the number. */
  lemma {:induction false} DecimalReads(n: nat)
    ensures ReadsAs(Decimal(n), n)
  {
    DigitOf(n % 10);
    DecimalStarts(n);
    var last := [('0' as int + n % 10) as char];
    if n < 10 {
      assert Decimal(n) == last && Value(last, 1) == 10 * Value(last, 0) + n;
    } else {
      DecimalReads(n / 10);
      var front := Decimal(n / 10);
      ValueOfPrefix(front, last, |front|);
      assert Decimal(n) == front + last;
    }
  }

  lemma DigitValue(c: char)
    requires DecimalDigit(c)
    ensures 0 <= c as int - '0' as int < 10 && (c != '0' ==> c as int > '0' as int)
  {
  }

  lemma {:induction false} ValueIsPositive(s: string, n: nat)
    requires 0 < n <= |s| && (forall i | 0 <= i < |s| :: DecimalDigit(s[i])) && s[0] != '0'
    ensures Value(s, n) > 0
  {
    DigitValue(s[n - 1]);
    if n > 1 {
      ValueIsPositive(s, n - 1);
    } else {
      assert Value(s, 0) == 0;
    }
  }

  lemma DivMod(a: nat, d: nat)
    requires d < 10
    ensures (10 * a + d) / 10 == a && (10 * a + d) % 10 == d
  {
  }

  /** Without its last digit a number is a tenth. */
  lemma FrontReads(s: string, n: nat)
    requires ReadsAs(s, n) && |s| > 1
    ensures n >= 10 && ReadsAs(s[..|s| - 1], n / 10) && s[|s| - 1] as int == '0' as int + n % 10
  {
    var front, last := s[..|s| - 1], s[|s| - 1];
    DigitValue(last);
    assert s == front + [last];
    ValueOfPrefix(front, [last], |front|);
    ValueIsPositive(front, |front|);
    DivMod(Value(front, |front|), last as int - '0' as int);
  }

  /** And no other digits do. */
  lemma {:induction false} ReadsOnce(s: string, n: nat)
    requires ReadsAs(s, n)
    ensures s == Decimal(n)
  {
    if |s| > 1 {
      FrontReads(s, n);
      hide Value;
      ReadsOnce(s[..|s| - 1], n / 10);
      assert s == s[..|s| - 1] + [s[|s| - 1]];
    } else {
      DigitValue(s[0]);
      assert Value(s, 1) == 10 * Value(s, 0) + (s[0] as int - '0' as int);
      assert s == [s[0]];
    }
  }

  /** Geyser's usual port. */
  lemma UsualPort()
    ensures Decimal(19132) == "19132"
  {
    var s := "19132";
    assert Value(s, 1) == 1 && Value(s, 2) == 19 && Value(s, 3) == 191 && Value(s, 4) == 1913 && Value(s, 5) == 19132;
    ReadsOnce(s, 19132);
  }

  // ---------------------------------------------------------------- the sections

  /** The line opens a section: it is not indented, ends in a colon and is no comment. */
  predicate Opens(line: string) {
    line != "" && !White(line[0]) && var t := Trim(line); t != "" && t[|t| - 1] == ':' && t[0] != '#'
  }

  lemma OpensIs(line: string)
    ensures IsHeader(line) <==> Opens(line)
  {
    if line != "" {
      WhitespaceIs(line[0]);
    }
    var t := Trim(line);
    if EndsWith(t, ":") {
      assert t[|t| - 1] == t[|t| - 1..][0] == ':';
    }
    if t != "" && t[|t| - 1] == ':' {
      assert t[|t| - 1..] == ":";
    }
  }

  /** It opens the section of this name: the name in either case and colons. */
  predicate Names(line: string, name: string) {
    var t := Trim(line);
    |name| <= |t| && SameName(t[..|name|], name) && forall k | |name| <= k < |t| :: t[k] == ':'
  }

  lemma {:induction false} CutColonsIs(s: string, n: nat, m: nat)
    requires m <= n <= |s| && (forall k | m <= k < n :: s[k] == ':') && (m > 0 ==> s[m - 1] != ':')
    ensures CutColons(s, n) == m
  {
    if n > m {
      CutColonsIs(s, n - 1, m);
    }
  }

  lemma {:induction false} CutColonsExactly(s: string, n: nat)
    requires n <= |s|
    ensures forall k | CutColons(s, n) <= k < n :: s[k] == ':'
  {
    if n > 0 && s[n - 1] == ':' {
      CutColonsExactly(s, n - 1);
    }
  }

  lemma NamesBedrock(line: string)
    ensures SectionName(line) == BEDROCK <==> Names(line, "bedrock")
  {
    hide Lowercase;
    var t := Trim(line);
    LowerIs("bedrock", "bedrock");
    LowercaseIsSame(TrimColons(t), "bedrock");
    CutColonsExactly(t, |t|);
    if Names(line, "bedrock") {
      assert t[6] != ':' by { assert SameLetter(t[..7][6], "bedrock"[6]); }
      CutColonsIs(t, |t|, 7);
    }
  }

  /** The last section opened at line i or above it is the bedrock one. */
  predicate InBedrock(lines: seq<string>, i: nat)
    requires i < |lines|
  {
    exists j | 0 <= j <= i ::
      Opens(lines[j]) && Names(lines[j], "bedrock") && forall k | j < k <= i :: !Opens(lines[k])
  }

  lemma {:induction false} SectionMeans(lines: seq<string>, i: nat)
    requires i < |lines|
    ensures SectionAt(lines, i + 1) == BEDROCK <==> InBedrock(lines, i)
  {
    hide IsHeader, SectionName, Opens, Names;
    OpensIs(lines[i]);
    NamesBedrock(lines[i]);
    if !Opens(lines[i]) {
      if i > 0 {
        SectionMeans(lines, i - 1);
        if InBedrock(lines, i - 1) {
          var j :| 0 <= j <= i - 1 && Opens(lines[j]) && Names(lines[j], "bedrock")
            && forall k | j < k <= i - 1 :: !Opens(lines[k]);
          assert Opens(lines[j]) && Names(lines[j], "bedrock") && forall k | j < k <= i :: !Opens(lines[k]);
        }
      } else {
        assert SectionAt(lines, 1) == "";
      }
    }
  }

  // ---------------------------------------------------------------- the lines

  /** The text of the line begins like this, behind its indent. */
  predicate Says(line: string, key: string) { |key| <= |Trim(line)| && Trim(line)[..|key|] == key }

  lemma SaysIs(line: string, key: string)
    ensures Begins(Trim(line), key) <==> Says(line, key)
  {
    var t := Trim(line);
    if Says(line, key) {
      assert forall i | 0 <= i < |key| :: t[i] == t[..|key|][i] == key[i];
    }
  }

  predicate IsPort(lines: seq<string>, i: nat)
    requires i < |lines|
  {
    InBedrock(lines, i) && Says(lines[i], "port:")
  }

  predicate IsClone(lines: seq<string>, i: nat)
    requires i < |lines|
  {
    InBedrock(lines, i) && Says(lines[i], "clone-remote-port:")
  }

  /** A line for the kind of authentication, in whatever section. */
  predicate IsAuth(lines: seq<string>, i: nat)
    requires i < |lines|
  {
    Says(lines[i], "auth-type:")
  }

  lemma OneKey(line: string)
    ensures !(Says(line, "port:") && Says(line, "clone-remote-port:"))
    ensures !(Says(line, "port:") && Says(line, "auth-type:"))
    ensures !(Says(line, "clone-remote-port:") && Says(line, "auth-type:"))
  {
    var t := Trim(line);
    assert Says(line, "port:") ==> t[0] == t[..5][0] == 'p';
    assert Says(line, "clone-remote-port:") ==> t[0] == t[..18][0] == 'c';
    assert Says(line, "auth-type:") ==> t[0] == t[..10][0] == 'a';
  }

  /** Which lines are set. */
  lemma KindMeans(lines: seq<string>, i: nat, floodgate: bool)
    requires i < |lines|
    ensures KindAt(lines, i, floodgate) == PortLine <==> IsPort(lines, i)
    ensures KindAt(lines, i, floodgate) == CloneLine <==> IsClone(lines, i)
    ensures KindAt(lines, i, floodgate) == AuthLine <==> floodgate && IsAuth(lines, i)
  {
    hide SectionAt, InBedrock, Begins, Says;
    SectionMeans(lines, i);
    SaysIs(lines[i], "port:");
    SaysIs(lines[i], "clone-remote-port:");
    SaysIs(lines[i], "auth-type:");
    OneKey(lines[i]);
  }

  /** The white space that a line begins with. */
  predicate IndentOf(indent: string, line: string) {
    indent <= line && AllWhite(indent) && (|indent| < |line| ==> !White(line[|indent|]))
  }

  lemma IndentIs(line: string)
    ensures IndentOf(Indent(line), line)
  {
    SkipSpaceExactly(line, 0);
    forall i | 0 <= i < Leading(line) ensures White(Indent(line)[i]) {
      WhitespaceIs(line[i]);
    }
    if Leading(line) < |line| {
      WhitespaceIs(line[Leading(line)]);
    }
  }

  /** What each line becomes: the port in decimal, no cloning, floodgate, or what it was. */
  ghost predicate BecomesRight(lines: seq<string>, out: seq<string>, i: nat, port: nat, floodgate: bool)
    requires i < |lines| == |out|
  {
    if IsPort(lines, i) then
      exists indent, digits ::
        out[i] == indent + "port: " + digits && IndentOf(indent, lines[i]) && ReadsAs(digits, port)
    else if IsClone(lines, i) then
      exists indent :: out[i] == indent + "clone-remote-port: false" && IndentOf(indent, lines[i])
    else if floodgate && IsAuth(lines, i) then
      exists indent :: out[i] == indent + "auth-type: floodgate" && IndentOf(indent, lines[i])
    else out[i] == lines[i]
  }

  lemma LineBecomes(lines: seq<string>, i: nat, port: nat, floodgate: bool)
    requires i < |lines|
    ensures |Rewrite(lines, port, floodgate)| == |lines|
    ensures BecomesRight(lines, Rewrite(lines, port, floodgate), i, port, floodgate)
  {
    hide IsPort, IsClone, IsAuth, KindAt, Indent, IndentOf, ReadsAs, Decimal, RewriteFirst;
    KindMeans(lines, i, floodgate);
    RewriteAt(lines, i, port, floodgate);
    IndentIs(lines[i]);
    DecimalReads(port);
    var out, indent := Rewrite(lines, port, floodgate)[i], Indent(lines[i]);
    if IsPort(lines, i) {
      assert out == indent + ("port: " + Decimal(port)) == indent + "port: " + Decimal(port);
    }
  }

  lemma {:induction false} HasMeans(lines: seq<string>, n: nat, floodgate: bool, kind: Kind)
    requires n <= |lines|
    ensures HasBefore(lines, n, floodgate, kind) <==> exists i | 0 <= i < n :: KindAt(lines, i, floodgate) == kind
  {
    hide KindAt;
    if n > 0 {
      HasMeans(lines, n - 1, floodgate, kind);
    }
  }

  /** A file is accepted exactly when it has each line that has to be set. */
  lemma AcceptedMeans(lines: seq<string>, floodgate: bool)
    ensures Accepted(lines, floodgate) <==>
      && (exists i | 0 <= i < |lines| :: IsPort(lines, i)) && (exists i | 0 <= i < |lines| :: IsClone(lines, i))
      && (floodgate ==> exists i | 0 <= i < |lines| :: IsAuth(lines, i))
  {
    hide KindAt, IsPort, IsClone, IsAuth, HasBefore;
    forall i | 0 <= i < |lines|
      ensures KindAt(lines, i, floodgate) == PortLine <==> IsPort(lines, i)
      ensures KindAt(lines, i, floodgate) == CloneLine <==> IsClone(lines, i)
      ensures KindAt(lines, i, floodgate) == AuthLine <==> floodgate && IsAuth(lines, i)
    {
      KindMeans(lines, i, floodgate);
    }
    HasMeans(lines, |lines|, floodgate, PortLine);
    HasMeans(lines, |lines|, floodgate, CloneLine);
    HasMeans(lines, |lines|, floodgate, AuthLine);
  }

  /**
   What configuring gives for any file: refused exactly without the lines it
   needs, and otherwise every line as it should be.
   */
  lemma ConfiguredMeans(text: string, port: nat, floodgate: bool)
    ensures var lines, out := Lines(text), ConfigureText(text, port, floodgate);
      && (out.Some? <==>
            && (exists i | 0 <= i < |lines| :: IsPort(lines, i)) && (exists i | 0 <= i < |lines| :: IsClone(lines, i))
            && (floodgate ==> exists i | 0 <= i < |lines| :: IsAuth(lines, i)))
      && (out.Some? ==>
            exists rendered: seq<string> ::
              && out.value == Written(rendered, if HasCrLf(text) then CrLf else Lf) && |rendered| == |lines|
              && forall i | 0 <= i < |lines| :: BecomesRight(lines, rendered, i, port, floodgate))
  {
    hide Accepted, IsPort, IsClone, IsAuth, BecomesRight, Written, Lines;
    var lines := Lines(text);
    AcceptedMeans(lines, floodgate);
    var rendered := Rewrite(lines, port, floodgate);
    forall i | 0 <= i < |lines| ensures |rendered| == |lines| && BecomesRight(lines, rendered, i, port, floodgate) {
      LineBecomes(lines, i, port, floodgate);
    }
    assert |rendered| == |lines|;
  }

  // ---------------------------------------------------------------- the check

  /** The three settings that the check looks for. */
  predicate ShowsPort(lines: seq<string>, i: nat, port: nat)
    requires i < |lines|
  {
    InBedrock(lines, i) && Says(lines[i], "port: ") && ReadsAs(Trim(lines[i])[6..], port)
  }

  predicate ShowsClone(lines: seq<string>, i: nat)
    requires i < |lines|
  {
    InBedrock(lines, i) && Trim(lines[i]) == "clone-remote-port: false"
  }

  predicate ShowsAuth(lines: seq<string>, i: nat)
    requires i < |lines|
  {
    SameName(Trim(lines[i]), "auth-type: floodgate")
  }

  lemma PortShown(t: string, port: nat)
    ensures t == Setting(PortLine, port) <==> |t| >= 6 && t[..6] == "port: " && ReadsAs(t[6..], port)
  {
    DecimalReads(port);
    if |t| >= 6 && t[..6] == "port: " && ReadsAs(t[6..], port) {
      ReadsOnce(t[6..], port);
      assert t == t[..6] + t[6..];
    }
    if t == Setting(PortLine, port) {
      assert t[..6] == "port: " && t[6..] == Decimal(port);
    }
  }

  lemma AuthShown(t: string)
    ensures Lowercase(t) == "auth-type: floodgate" <==> SameName(t, "auth-type: floodgate")
  {
    LowerIs("auth-type: floodgate", "auth-type: floodgate");
    LowercaseIsSame(t, "auth-type: floodgate");
  }

  lemma ShownAt(lines: seq<string>, i: nat, port: nat)
    requires i < |lines|
    ensures Crossplay.Says(lines, i, port, PortLine) <==> ShowsPort(lines, i, port)
    ensures Crossplay.Says(lines, i, port, CloneLine) <==> ShowsClone(lines, i)
    ensures Crossplay.Says(lines, i, port, AuthLine) <==> ShowsAuth(lines, i)
  {
    hide SectionAt, InBedrock, ReadsAs, Lowercase, Trim, SameName, Decimal;
    SectionMeans(lines, i);
    PortShown(Trim(lines[i]), port);
    AuthShown(Trim(lines[i]));
  }

  lemma {:induction false} SaysMeans(lines: seq<string>, n: nat, port: nat, kind: Kind)
    requires n <= |lines|
    ensures SaysBefore(lines, n, port, kind) <==> exists i | 0 <= i < n :: Crossplay.Says(lines, i, port, kind)
  {
    hide Crossplay.Says;
    if n > 0 {
      SaysMeans(lines, n - 1, port, kind);
    }
  }

  /** The check accepts exactly a file that shows the port in decimal, no cloning and, where asked for, floodgate. */
  lemma MatchesMeans(lines: seq<string>, port: nat, floodgate: bool)
    ensures Matches(lines, port, floodgate) <==>
      && (exists i | 0 <= i < |lines| :: ShowsPort(lines, i, port))
      && (exists i | 0 <= i < |lines| :: ShowsClone(lines, i))
      && (floodgate ==> exists i | 0 <= i < |lines| :: ShowsAuth(lines, i))
  {
    hide Crossplay.Says, ShowsPort, ShowsClone, ShowsAuth, SaysBefore;
    forall i | 0 <= i < |lines|
      ensures Crossplay.Says(lines, i, port, PortLine) <==> ShowsPort(lines, i, port)
      ensures Crossplay.Says(lines, i, port, CloneLine) <==> ShowsClone(lines, i)
      ensures Crossplay.Says(lines, i, port, AuthLine) <==> ShowsAuth(lines, i)
    {
      ShownAt(lines, i, port);
    }
    SaysMeans(lines, |lines|, port, PortLine);
    SaysMeans(lines, |lines|, port, CloneLine);
    SaysMeans(lines, |lines|, port, AuthLine);
  }
}
