/**
 Rewriting Geyser's configuration, and the separately written loop that checks
 it. Both track the section they are in line by line; the rewriting removes some
 of the lines that the tracking depends on.
 */
module Crossplay {
  import opened Options
  import opened Text

  const BEDROCK: string := "bedrock"
  const PORT: string := "port:"
  const CLONE: string := "clone-remote-port:"
  const AUTH: string := "auth-type:"

  /** What rewriting does to a line. */
  datatype Kind = PortLine | CloneLine | AuthLine | OtherLine

  /** Does the string start with this key? */
  predicate Begins(s: string, key: string) { |key| <= |s| && forall i | 0 <= i < |key| :: s[i] == key[i] }

  /** The length of the first n characters without the colons at their end. */
  function CutColons(s: string, n: nat): (m: nat)
    requires n <= |s|
    ensures m <= n
  {
    if n > 0 && s[n - 1] == ':' then CutColons(s, n - 1) else n
  }

  function TrimColons(s: string): string { s[..CutColons(s, |s|)] }

  function Decimal(n: nat): string {
    var last := [('0' as int + n % 10) as char];
    if n < 10 then last else Decimal(n / 10) + last
  }

  /** An unindented line that ends in a colon and is no comment. */
  predicate IsHeader(line: string) {
    !(line != [] && IsWhitespace(line[0])) && EndsWith(Trim(line), ":") && !(Begins(Trim(line), "#"))
  }

  function SectionName(line: string): string { Lowercase(TrimColons(Trim(line))) }

  /** The section after the first n lines. */
  function SectionAt(lines: seq<string>, n: nat): string
    requires n <= |lines|
  {
    if n == 0 then ""
    else if IsHeader(lines[n - 1]) then SectionName(lines[n - 1])
    else SectionAt(lines, n - 1)
  }

  function KindIn(section: string, line: string, floodgate: bool): Kind {
    if section == BEDROCK && Begins(Trim(line), PORT) then PortLine
    else if section == BEDROCK && Begins(Trim(line), CLONE) then CloneLine
    else if floodgate && Begins(Trim(line), AUTH) then AuthLine
    else OtherLine
  }

  function KindAt(lines: seq<string>, i: nat, floodgate: bool): Kind
    requires i < |lines|
  {
    KindIn(SectionAt(lines, i + 1), lines[i], floodgate)
  }

  function Indent(line: string): string { line[..Leading(line)] }

  /** What a targeted line is set to. */
  function Setting(kind: Kind, port: nat): string {
    match kind
    case PortLine => "port: " + Decimal(port)
    case CloneLine => "clone-remote-port: false"
    case AuthLine => "auth-type: floodgate"
    case OtherLine => ""
  }

  function Rewritten(kind: Kind, line: string, port: nat): string {
    if kind.OtherLine? then line else Indent(line) + Setting(kind, port)
  }

  /** How line i is rendered. */
  function RenderedAt(lines: seq<string>, i: nat, port: nat, floodgate: bool): string
    requires i < |lines|
  {
    Rewritten(KindAt(lines, i, floodgate), lines[i], port)
  }

  /** The first n lines as they are rewritten. */
  function RewriteFirst(lines: seq<string>, n: nat, port: nat, floodgate: bool): (out: seq<string>)
    requires n <= |lines|
    ensures |out| == n
  {
    if n == 0 then []
    else
      RewriteFirst(lines, n - 1, port, floodgate)
      + [RenderedAt(lines, n - 1, port, floodgate)]
  }

  function Rewrite(lines: seq<string>, port: nat, floodgate: bool): seq<string> {
    RewriteFirst(lines, |lines|, port, floodgate)
  }

  /** Is one of the first n lines of this kind? */
  predicate HasBefore(lines: seq<string>, n: nat, floodgate: bool, kind: Kind)
    requires n <= |lines|
  {
    n > 0 && (KindAt(lines, n - 1, floodgate) == kind || HasBefore(lines, n - 1, floodgate, kind))
  }

  predicate Has(lines: seq<string>, floodgate: bool, kind: Kind) { HasBefore(lines, |lines|, floodgate, kind) }

  /** Every line that has to be set is there. */
  predicate Accepted(lines: seq<string>, floodgate: bool) {
    && Has(lines, floodgate, PortLine) && Has(lines, floodgate, CloneLine)
    && (floodgate ==> Has(lines, floodgate, AuthLine))
  }

  /** Both loops start each line by updating the section. */
  method TrackSection(section: string, line: string) returns (next: string)
    ensures next == if IsHeader(line) then SectionName(line) else section
  {
    var trimmed := Trim(line);
    next := section;
    if !(line != [] && IsWhitespace(line[0])) && EndsWith(trimmed, ":") && !(Begins(trimmed, "#")) {
      next := Lowercase(TrimColons(trimmed));
    }
  }

  /** One line of the rewriting loop: what it is, and what is rendered for it. */
  method RewriteLine(section: string, line: string, port: nat, floodgate: bool) returns (kind: Kind, rendered: string)
    ensures kind == KindIn(section, line, floodgate) && rendered == Rewritten(kind, line, port)
  {
    var trimmed := Trim(line);
    var indent := line[..|line| - |TrimStart(line)|];
    assert indent == Indent(line);
    if section == BEDROCK && Begins(trimmed, PORT) {
      return PortLine, indent + ("port: " + Decimal(port));
    } else if section == BEDROCK && Begins(trimmed, CLONE) {
      return CloneLine, indent + "clone-remote-port: false";
    } else if floodgate && Begins(trimmed, AUTH) {
      return AuthLine, indent + "auth-type: floodgate";
    }
    return OtherLine, line;
  }

  /** These are the kinds of the first lines. */
  predicate AreKinds(lines: seq<string>, kinds: seq<Kind>, floodgate: bool) {
    |kinds| <= |lines| && forall j | 0 <= j < |kinds| :: kinds[j] == KindAt(lines, j, floodgate)
  }

  lemma {:induction false} KindsTell(lines: seq<string>, kinds: seq<Kind>, n: nat, floodgate: bool, kind: Kind)
    requires AreKinds(lines, kinds, floodgate) && n <= |kinds|
    ensures kind in kinds[..n] <==> HasBefore(lines, n, floodgate, kind)
  {
    hide KindIn, SectionAt;
    if n > 0 {
      KindsTell(lines, kinds, n - 1, floodgate, kind);
      assert kinds[..n] == kinds[..n - 1] + [kinds[n - 1]];
    }
  }

  lemma FoundExactly(lines: seq<string>, kinds: seq<Kind>, floodgate: bool)
    requires AreKinds(lines, kinds, floodgate) && |kinds| == |lines|
    ensures forall kind :: kind in kinds <==> Has(lines, floodgate, kind)
  {
    forall kind ensures kind in kinds <==> Has(lines, floodgate, kind) {
      KindsTell(lines, kinds, |kinds|, floodgate, kind);
    }
    assert kinds[..|kinds|] == kinds;
  }

  predicate AreRendered(lines: seq<string>, rendered: seq<string>, port: nat, floodgate: bool) {
    |rendered| <= |lines| && forall j | 0 <= j < |rendered| :: rendered[j] == RenderedAt(lines, j, port, floodgate)
  }

  lemma {:induction false} RenderedIsRewrite(lines: seq<string>, rendered: seq<string>, port: nat, floodgate: bool)
    requires AreRendered(lines, rendered, port, floodgate)
    ensures rendered == RewriteFirst(lines, |rendered|, port, floodgate)
    decreases |rendered|
  {
    hide RenderedAt;
    if rendered != [] {
      RenderedIsRewrite(lines, rendered[..|rendered| - 1], port, floodgate);
      assert rendered == rendered[..|rendered| - 1] + [rendered[|rendered| - 1]];
    }
  }

  lemma KindsNext(lines: seq<string>, kinds: seq<Kind>, kind: Kind, floodgate: bool)
    requires |kinds| < |lines| && AreKinds(lines, kinds, floodgate) && kind == KindAt(lines, |kinds|, floodgate)
    ensures AreKinds(lines, kinds + [kind], floodgate)
  {
  }

  /** One turn of the rewriting loop: the section is tracked, then the line is rendered in it. */
  method RewriteNext(
      lines: seq<string>, before: string, rendered: seq<string>, ghost kinds: seq<Kind>, port: nat, floodgate: bool)
    returns (section: string, kind: Kind, more: seq<string>)
    requires |kinds| == |rendered| < |lines| && before == SectionAt(lines, |rendered|)
    requires AreKinds(lines, kinds, floodgate) && AreRendered(lines, rendered, port, floodgate)
    ensures |more| == |rendered| + 1 && section == SectionAt(lines, |more|)
    ensures AreKinds(lines, kinds + [kind], floodgate) && AreRendered(lines, more, port, floodgate)
  {
    hide Rewritten, KindIn, IsHeader, SectionName;
    var line := lines[|rendered|];
    section := TrackSection(before, line);
    assert section == SectionAt(lines, |rendered| + 1);
    var text;
    kind, text := RewriteLine(section, line, port, floodgate);
    KindsNext(lines, kinds, kind, floodgate);
    more := rendered + [text];
  }

  /** The rewriting loop; None where it cannot find what it has to set. */
  method Configure(lines: seq<string>, port: nat, floodgate: bool) returns (out: Option<seq<string>>)
    ensures out.Some? <==> Accepted(lines, floodgate)
    ensures out.Some? ==> out.value == Rewrite(lines, port, floodgate)
  {
    var section := "";
    var foundPort, foundClone, foundAuth := false, false, !floodgate;
    var rendered := [];
    ghost var kinds: seq<Kind> := [];
    while |rendered| < |lines|
      invariant |kinds| == |rendered| <= |lines|
      invariant section == SectionAt(lines, |rendered|)
      invariant AreRendered(lines, rendered, port, floodgate)
      invariant AreKinds(lines, kinds, floodgate)
      invariant foundPort <==> PortLine in kinds
      invariant foundClone <==> CloneLine in kinds
      invariant foundAuth <==> !floodgate || AuthLine in kinds
    {
      var kind;
      section, kind, rendered := RewriteNext(lines, section, rendered, kinds, port, floodgate);
      kinds := kinds + [kind];
      match kind {
        case PortLine => foundPort := true;
        case CloneLine => foundClone := true;
        case AuthLine => foundAuth := true;
        case OtherLine =>
      }
    }
    FoundExactly(lines, kinds, floodgate);
    RenderedIsRewrite(lines, rendered, port, floodgate);
    if !foundPort || !foundAuth || !foundClone {
      return None;
    }
    out := Some(rendered);
  }

  /** Does line i say what the checking loop looks for? */
  predicate Says(lines: seq<string>, i: nat, port: nat, kind: Kind)
    requires i < |lines|
  {
    if kind.AuthLine? then Lowercase(Trim(lines[i])) == Setting(kind, port)
    else SectionAt(lines, i + 1) == BEDROCK && Trim(lines[i]) == Setting(kind, port)
  }

  predicate SaysBefore(lines: seq<string>, n: nat, port: nat, kind: Kind)
    requires n <= |lines|
  {
    n > 0 && (Says(lines, n - 1, port, kind) || SaysBefore(lines, n - 1, port, kind))
  }

  predicate Matches(lines: seq<string>, port: nat, floodgate: bool) {
    SaysBefore(lines, |lines|, port, PortLine) && SaysBefore(lines, |lines|, port, CloneLine)
    && (floodgate ==> SaysBefore(lines, |lines|, port, AuthLine))
  }

  method CheckLine(section: string, line: string, port: nat, floodgate: bool)
    returns (isPort: bool, isClone: bool, isAuth: bool)
    ensures isPort == (section == BEDROCK && Trim(line) == Setting(PortLine, port))
    ensures isClone == (section == BEDROCK && Trim(line) == Setting(CloneLine, port))
    ensures isAuth == (floodgate && Lowercase(Trim(line)) == Setting(AuthLine, port))
  {
    var trimmed := Trim(line);
    isPort := section == BEDROCK && trimmed == "port: " + Decimal(port);
    isClone := section == BEDROCK && trimmed == "clone-remote-port: false";
    isAuth := floodgate && Lowercase(trimmed) == "auth-type: floodgate";
  }

  /** The checking loop. */
  method ConfigMatches(lines: seq<string>, port: nat, floodgate: bool) returns (ok: bool)
    ensures ok == Matches(lines, port, floodgate)
  {
    var section := "";
    var portMatches, cloneDisabled, authMatches := false, false, !floodgate;
    var i := 0;
    while i < |lines|
      invariant 0 <= i <= |lines| && section == SectionAt(lines, i)
      invariant portMatches <==> SaysBefore(lines, i, port, PortLine)
      invariant cloneDisabled <==> SaysBefore(lines, i, port, CloneLine)
      invariant authMatches <==> !floodgate || SaysBefore(lines, i, port, AuthLine)
    {
      section := TrackSection(section, lines[i]);
      assert section == SectionAt(lines, i + 1);
      var isPort, isClone, isAuth := CheckLine(section, lines[i], port, floodgate);
      portMatches := portMatches || isPort;
      cloneDisabled := cloneDisabled || isClone;
      authMatches := authMatches || isAuth;
      i := i + 1;
    }
    ok := portMatches && cloneDisabled && authMatches;
  }

  // ---------------------------------------------------------------- one rewritten line

  lemma {:induction false} DecimalDigits(n: nat)
    ensures Decimal(n) != [] && forall i | 0 <= i < |Decimal(n)| :: IsDigit(Decimal(n)[i])
  {
    if n >= 10 {
      DecimalDigits(n / 10);
    }
  }

  /** A setting begins with its own letter and ends in neither white space nor a colon. */
  lemma SettingShape(kind: Kind, port: nat)
    requires !kind.OtherLine?
    ensures var x := Setting(kind, port);
      && x != [] && x[0] == FirstLetter(kind) && !IsWhitespace(x[|x| - 1]) && x[|x| - 1] != ':'
  {
    DecimalDigits(port);
  }

  function FirstLetter(kind: Kind): char {
    match kind
    case PortLine => 'p'
    case CloneLine => 'c'
    case AuthLine => 'a'
    case OtherLine => ' '
  }

  lemma {:induction false} LeadingOfIndented(indent: string, x: string, i: nat)
    requires forall k | 0 <= k < |indent| :: IsWhitespace(indent[k])
    requires x != [] && !IsWhitespace(x[0]) && i <= |indent|
    ensures SkipSpace(indent + x, i) == |indent|
    decreases |indent| - i
  {
    if i < |indent| {
      LeadingOfIndented(indent, x, i + 1);
    }
  }

  /** A rewritten line reads back as its setting, keeps its indent and starts no section. */
  lemma RewrittenReads(kind: Kind, line: string, port: nat)
    requires !kind.OtherLine?
    ensures var out := Rewritten(kind, line, port);
      && Trim(out) == Setting(kind, port) && out == Indent(out) + Setting(kind, port) && !IsHeader(out)
  {
    var out, x := Rewritten(kind, line, port), Setting(kind, port);
    SettingShape(kind, port);
    SkipSpaceExactly(line, 0);
    LeadingOfIndented(Indent(line), x, 0);
    assert out[|Indent(line)|..] == x && out[..|Indent(line)|] == Indent(line);
    assert TrimStart(out) == x && TrimEnd(x) == x;
    assert x[|x| - 1..] != ":";
  }

  /** A header that names the bedrock section is itself no targeted line. */
  lemma BedrockHeaderIsOther(line: string)
    requires SectionName(line) == BEDROCK
    ensures Trim(line) != [] && Lower(Trim(line)[0]) == 'b'
  {
    var name := TrimColons(Trim(line));
    LowerFirstAt(name, |name|, 0);
    assert Lowercase(name)[0] == 'b';
  }

  lemma AuthIsNotBedrock(line: string)
    requires Begins(Trim(line), AUTH)
    ensures SectionName(line) != BEDROCK
  {
    if SectionName(line) == BEDROCK {
      BedrockHeaderIsOther(line);
    }
  }

  lemma KindStarts(section: string, line: string, floodgate: bool)
    requires !KindIn(section, line, floodgate).OtherLine?
    ensures Trim(line) != [] && Trim(line)[0] == FirstLetter(KindIn(section, line, floodgate))
  {
  }

  // ---------------------------------------------------------------- sections before and after

  /** Rewriting turns an unindented header of this kind into a plain line. */
  predicate IsAuthHeader(line: string, floodgate: bool) { floodgate && IsHeader(line) && Begins(Trim(line), AUTH) }

  /** The section as it reads when those headers are no headers. */
  function SectionWithout(lines: seq<string>, n: nat, floodgate: bool): string
    requires n <= |lines|
  {
    if n == 0 then ""
    else if IsHeader(lines[n - 1]) && !IsAuthHeader(lines[n - 1], floodgate) then SectionName(lines[n - 1])
    else SectionWithout(lines, n - 1, floodgate)
  }

  /** A header line is rewritten exactly when it is an auth-type header. */
  lemma HeaderKind(lines: seq<string>, i: nat, floodgate: bool)
    requires i < |lines| && IsHeader(lines[i])
    ensures KindAt(lines, i, floodgate) == if IsAuthHeader(lines[i], floodgate) then AuthLine else OtherLine
  {
    if SectionAt(lines, i + 1) == BEDROCK {
      BedrockHeaderIsOther(lines[i]);
      if !KindAt(lines, i, floodgate).OtherLine? {
        KindStarts(BEDROCK, lines[i], floodgate);
      }
    }
  }

  lemma RewriteFirstAt(lines: seq<string>, i: nat, n: nat, port: nat, floodgate: bool)
    requires i < n <= |lines|
    ensures RewriteFirst(lines, n, port, floodgate)[i] == RenderedAt(lines, i, port, floodgate)
  {
    var rendered := seq(n, k requires 0 <= k < n => RenderedAt(lines, k, port, floodgate));
    RenderedIsRewrite(lines, rendered, port, floodgate);
  }

  /** Line by line, only the targeted lines differ. */
  lemma RewriteAt(lines: seq<string>, i: nat, port: nat, floodgate: bool)
    requires i < |lines|
    ensures |Rewrite(lines, port, floodgate)| == |lines|
    ensures Rewrite(lines, port, floodgate)[i] == Rewritten(KindAt(lines, i, floodgate), lines[i], port)
  {
    RewriteFirstAt(lines, i, |lines|, port, floodgate);
  }

  /** Rewriting keeps every header except the auth-type ones, which never name the bedrock section. */
  lemma HeadersAfter(lines: seq<string>, i: nat, port: nat, floodgate: bool)
    requires i < |lines|
    ensures var line, out := lines[i], Rewrite(lines, port, floodgate)[i];
      && (IsHeader(out) <==> IsHeader(line) && !IsAuthHeader(line, floodgate))
      && (IsHeader(out) ==> out == line)
      && (IsAuthHeader(line, floodgate) ==> SectionName(line) != BEDROCK)
  {
    var kind := KindAt(lines, i, floodgate);
    RewriteAt(lines, i, port, floodgate);
    if IsHeader(lines[i]) {
      HeaderKind(lines, i, floodgate);
    }
    if !kind.OtherLine? {
      RewrittenReads(kind, lines[i], port);
    }
    if IsAuthHeader(lines[i], floodgate) {
      AuthIsNotBedrock(lines[i]);
    }
  }

  function Header(line: string): Option<string> { if IsHeader(line) then Some(SectionName(line)) else None }

  function HeaderWithout(line: string, floodgate: bool): Option<string> {
    if IsAuthHeader(line, floodgate) then None else Header(line)
  }

  /** Each header names the section from its own line on. */
  predicate Tracks(sections: seq<string>, headers: seq<Option<string>>) {
    && |sections| == |headers| + 1 && sections[0] == ""
    && forall n | 0 <= n < |headers| :: sections[n + 1] == if headers[n].Some? then headers[n].value else sections[n]
  }

  /** So the headers decide the sections. */
  lemma {:induction false} TracksOnce(a: seq<string>, b: seq<string>, headers: seq<Option<string>>, n: nat)
    requires Tracks(a, headers) && Tracks(b, headers) && n <= |headers|
    ensures a[n] == b[n]
  {
    if n > 0 {
      TracksOnce(a, b, headers, n - 1);
    }
  }

  function Headers(lines: seq<string>): (r: seq<Option<string>>)
    ensures |r| == |lines|
  {
    seq(|lines|, i requires 0 <= i < |lines| => Header(lines[i]))
  }

  function Sections(lines: seq<string>): (r: seq<string>)
    ensures |r| == |lines| + 1
  {
    seq(|lines| + 1, n requires 0 <= n < |lines| + 1 => SectionAt(lines, n))
  }

  lemma SectionsTrack(lines: seq<string>)
    ensures Tracks(Sections(lines), Headers(lines))
  {
  }

  function SectionsWithout(lines: seq<string>, floodgate: bool): (r: seq<string>)
    ensures |r| == |lines| + 1
  {
    seq(|lines| + 1, n requires 0 <= n < |lines| + 1 => SectionWithout(lines, n, floodgate))
  }

  function HeadersWithout(lines: seq<string>, floodgate: bool): (r: seq<Option<string>>)
    ensures |r| == |lines|
  {
    seq(|lines|, i requires 0 <= i < |lines| => HeaderWithout(lines[i], floodgate))
  }

  lemma SectionsWithoutTrack(lines: seq<string>, floodgate: bool)
    ensures Tracks(SectionsWithout(lines, floodgate), HeadersWithout(lines, floodgate))
  {
  }

  /** The sections of the output are those of the input without its auth-type headers. */
  lemma SectionsAfter(lines: seq<string>, n: nat, port: nat, floodgate: bool)
    requires n <= |lines|
    ensures SectionAt(Rewrite(lines, port, floodgate), n) == SectionWithout(lines, n, floodgate)
  {
    var out := Rewrite(lines, port, floodgate);
    forall i | 0 <= i < |lines| ensures Header(out[i]) == HeaderWithout(lines[i], floodgate) {
      HeadersAfter(lines, i, port, floodgate);
    }
    SectionsTrack(out);
    SectionsWithoutTrack(lines, floodgate);
    assert Headers(out) == HeadersWithout(lines, floodgate);
    TracksOnce(Sections(out), SectionsWithout(lines, floodgate), Headers(out), n);
  }

  /** So what was in the bedrock section still is. */
  lemma {:induction false} BedrockStays(lines: seq<string>, n: nat, floodgate: bool)
    requires n <= |lines| && SectionAt(lines, n) == BEDROCK
    ensures SectionWithout(lines, n, floodgate) == BEDROCK
  {
    if n > 0 {
      if IsAuthHeader(lines[n - 1], floodgate) {
        AuthIsNotBedrock(lines[n - 1]);
      }
      if !IsHeader(lines[n - 1]) {
        BedrockStays(lines, n - 1, floodgate);
      }
    }
  }

  /** A targeted line of the input says its setting in the output. */
  lemma TargetSays(lines: seq<string>, i: nat, port: nat, floodgate: bool)
    requires i < |lines| && !KindAt(lines, i, floodgate).OtherLine?
    ensures Says(Rewrite(lines, port, floodgate), i, port, KindAt(lines, i, floodgate))
  {
    var kind := KindAt(lines, i, floodgate);
    RewriteAt(lines, i, port, floodgate);
    RewrittenReads(kind, lines[i], port);
    if kind.AuthLine? {
      AuthIsLower(port);
    } else {
      KindNeeds(SectionAt(lines, i + 1), lines[i], floodgate);
      SectionsAfter(lines, i + 1, port, floodgate);
      BedrockStays(lines, i + 1, floodgate);
    }
  }

  /** The output says what the input had a line for. */
  lemma {:induction false} RewriteSays(lines: seq<string>, n: nat, port: nat, floodgate: bool, kind: Kind)
    requires n <= |lines| && HasBefore(lines, n, floodgate, kind) && !kind.OtherLine?
    ensures SaysBefore(Rewrite(lines, port, floodgate), n, port, kind)
  {
    if KindAt(lines, n - 1, floodgate) == kind {
      TargetSays(lines, n - 1, port, floodgate);
    } else {
      RewriteSays(lines, n - 1, port, floodgate, kind);
    }
  }

  lemma AuthIsLower(port: nat)
    ensures Lowercase(Setting(AuthLine, port)) == Setting(AuthLine, port)
  {
    LowercaseKeeps(Setting(AuthLine, port));
  }

  lemma LowercaseKeeps(s: string)
    requires forall i | 0 <= i < |s| :: !('A' <= s[i] <= 'Z')
    ensures Lowercase(s) == s
  {
    forall i | 0 <= i < |s| ensures Lowercase(s)[i] == s[i] {
      LowerFirstAt(s, |s|, i);
    }
  }

  /**
   Whatever the rewriting accepts, the check accepts its output, for the same
   port and the same floodgate setting.
   */
  lemma CheckAcceptsRewriting(lines: seq<string>, port: nat, floodgate: bool)
    requires Accepted(lines, floodgate)
    ensures Matches(Rewrite(lines, port, floodgate), port, floodgate)
  {
    RewriteSays(lines, |lines|, port, floodgate, PortLine);
    RewriteSays(lines, |lines|, port, floodgate, CloneLine);
    if floodgate {
      RewriteSays(lines, |lines|, port, floodgate, AuthLine);
    }
  }

  // ---------------------------------------------------------------- rewriting twice

  /** The line is already what rewriting would make of it in the section it ends up in. */
  predicate Settled(lines: seq<string>, i: nat, port: nat, floodgate: bool)
    requires i < |lines|
  {
    KindAt(lines, i, floodgate).OtherLine? ==>
      Rewritten(KindIn(SectionWithout(lines, i + 1, floodgate), lines[i], floodgate), lines[i], port) == lines[i]
  }

  /** A rewritten line is of the same kind again. */
  lemma RewrittenKind(section: string, line: string, kind: Kind, port: nat, floodgate: bool)
    requires !kind.OtherLine? && Trim(line) == Setting(kind, port)
    requires if kind.AuthLine? then floodgate else section == BEDROCK
    ensures KindIn(section, line, floodgate) == kind
  {
    SettingShape(kind, port);
    var k := KindIn(section, line, floodgate);
    assert Begins(Setting(PortLine, port), PORT) && Begins(Setting(CloneLine, port), CLONE);
    assert Begins(Setting(AuthLine, port), AUTH);
    KindStarts(section, line, floodgate);
  }

  /** A line of a kind that reads as its setting is left as it is. */
  lemma SetLineStays(lines: seq<string>, i: nat, kind: Kind, port: nat, floodgate: bool)
    requires i < |lines| && !kind.OtherLine? && KindAt(lines, i, floodgate) == kind
    requires lines[i] == Indent(lines[i]) + Setting(kind, port)
    ensures Rewrite(lines, port, floodgate)[i] == lines[i]
  {
    RewriteAt(lines, i, port, floodgate);
  }

  /** What the first run leaves in the place of a targeted line. */
  lemma TargetedLine(lines: seq<string>, i: nat, kind: Kind, port: nat, floodgate: bool)
    requires i < |lines| && KindAt(lines, i, floodgate) == kind && !kind.OtherLine?
    ensures var out := Rewrite(lines, port, floodgate);
      out[i] == Indent(out[i]) + Setting(kind, port) && KindAt(out, i, floodgate) == kind
  {
    var out := Rewrite(lines, port, floodgate);
    RewriteAt(lines, i, port, floodgate);
    RewrittenReads(kind, lines[i], port);
    SectionsAfter(lines, i + 1, port, floodgate);
    KindNeeds(SectionAt(lines, i + 1), lines[i], floodgate);
    if !kind.AuthLine? {
      BedrockStays(lines, i + 1, floodgate);
    }
    RewrittenKind(SectionAt(out, i + 1), out[i], kind, port, floodgate);
  }

  lemma KindNeeds(section: string, line: string, floodgate: bool)
    ensures match KindIn(section, line, floodgate)
            case OtherLine => true
            case AuthLine => floodgate
            case _ => section == BEDROCK
  {
  }

  /** A targeted line is set once and for all. */
  lemma TargetedLineStays(lines: seq<string>, i: nat, port: nat, floodgate: bool)
    requires i < |lines| && !KindAt(lines, i, floodgate).OtherLine?
    ensures var out := Rewrite(lines, port, floodgate); Rewrite(out, port, floodgate)[i] == out[i]
  {
    var kind := KindAt(lines, i, floodgate);
    TargetedLine(lines, i, kind, port, floodgate);
    SetLineStays(Rewrite(lines, port, floodgate), i, kind, port, floodgate);
  }

  lemma {:induction false} HasFound(lines: seq<string>, i: nat, n: nat, floodgate: bool)
    requires i < n <= |lines|
    ensures HasBefore(lines, n, floodgate, KindAt(lines, i, floodgate))
  {
    hide KindIn, SectionAt;
    if i < n - 1 {
      HasFound(lines, i, n - 1, floodgate);
    }
  }

  lemma {:induction false} HasAgain(lines: seq<string>, n: nat, port: nat, floodgate: bool, kind: Kind)
    requires n <= |lines| && HasBefore(lines, n, floodgate, kind) && !kind.OtherLine?
    ensures HasBefore(Rewrite(lines, port, floodgate), n, floodgate, kind)
  {
    hide KindIn, SectionAt, RewriteFirst;
    if KindAt(lines, n - 1, floodgate) == kind {
      TargetedLine(lines, n - 1, kind, port, floodgate);
    } else {
      HasAgain(lines, n - 1, port, floodgate, kind);
    }
  }

  /** Whatever the rewriting accepts, it accepts its own output again, for any port. */
  lemma AcceptedAgain(lines: seq<string>, port: nat, floodgate: bool)
    requires Accepted(lines, floodgate)
    ensures Accepted(Rewrite(lines, port, floodgate), floodgate)
  {
    HasAgain(lines, |lines|, port, floodgate, PortLine);
    HasAgain(lines, |lines|, port, floodgate, CloneLine);
    if floodgate {
      HasAgain(lines, |lines|, port, floodgate, AuthLine);
    }
  }

  /** What the second run makes of line i. */
  lemma SecondRunAt(lines: seq<string>, i: nat, port: nat, floodgate: bool)
    requires i < |lines|
    ensures var out := Rewrite(lines, port, floodgate);
      Rewrite(out, port, floodgate)[i] == out[i] <==> Settled(lines, i, port, floodgate)
  {
    if KindAt(lines, i, floodgate).OtherLine? {
      var out := Rewrite(lines, port, floodgate);
      RewriteAt(lines, i, port, floodgate);
      RewriteAt(out, i, port, floodgate);
      SectionsAfter(lines, i + 1, port, floodgate);
    } else {
      TargetedLineStays(lines, i, port, floodgate);
    }
  }

  /** Rewriting the rendered lines once more changes nothing exactly when every line was left settled. */
  lemma SecondRewriteChangesNothing(lines: seq<string>, port: nat, floodgate: bool)
    ensures var out := Rewrite(lines, port, floodgate);
      Rewrite(out, port, floodgate) == out <==> forall i | 0 <= i < |lines| :: Settled(lines, i, port, floodgate)
  {
    var out := Rewrite(lines, port, floodgate);
    forall i | 0 <= i < |lines|
      ensures Rewrite(out, port, floodgate)[i] == out[i] <==> Settled(lines, i, port, floodgate)
    {
      SecondRunAt(lines, i, port, floodgate);
    }
    if forall i | 0 <= i < |lines| :: Settled(lines, i, port, floodgate) {
      assert Rewrite(out, port, floodgate) == out;
    }
  }

  lemma {:induction false} SectionsWithoutAuthHeaders(lines: seq<string>, n: nat, floodgate: bool)
    requires n <= |lines| && forall i | 0 <= i < |lines| :: !IsAuthHeader(lines[i], floodgate)
    ensures SectionWithout(lines, n, floodgate) == SectionAt(lines, n)
  {
    if n > 0 {
      SectionsWithoutAuthHeaders(lines, n - 1, floodgate);
    }
  }

  /** Without unindented auth-type headers every line is settled. */
  lemma SettledWithoutAuthHeaders(lines: seq<string>, i: nat, port: nat, floodgate: bool)
    requires i < |lines| && forall k | 0 <= k < |lines| :: !IsAuthHeader(lines[k], floodgate)
    ensures Settled(lines, i, port, floodgate)
  {
    SectionsWithoutAuthHeaders(lines, i + 1, floodgate);
  }

  lemma NoAuthHeadersLeft(lines: seq<string>, i: nat, port: nat, floodgate: bool)
    requires i < |lines|
    ensures !IsAuthHeader(Rewrite(lines, port, floodgate)[i], floodgate)
  {
    RewriteAt(lines, i, port, floodgate);
    if !KindAt(lines, i, floodgate).OtherLine? {
      RewrittenReads(KindAt(lines, i, floodgate), lines[i], port);
    } else if IsHeader(lines[i]) {
      HeaderKind(lines, i, floodgate);
    }
  }

  /** A line that reads as it stands. */
  lemma PlainLine(line: string)
    requires line != [] && !IsWhitespace(line[0]) && !IsWhitespace(line[|line| - 1])
    ensures Trim(line) == line
  {
    assert Leading(line) == 0 && line[0..] == line && CutSpace(line, |line|) == |line|;
  }

  const SAMPLE: seq<string> := ["bedrock:", "port:x", "clone-remote-port:x", "auth-type:", "port:y"]

  /** The header of the sample, and the auth-type header that hides its last line from the first run. */
  lemma SampleHeaders()
    ensures IsHeader(SAMPLE[0]) && SectionName(SAMPLE[0]) == BEDROCK && !IsAuthHeader(SAMPLE[0], true)
    ensures IsAuthHeader(SAMPLE[3], true) && SectionName(SAMPLE[3]) != BEDROCK
  {
    PlainLine(SAMPLE[0]);
    PlainLine(SAMPLE[3]);
    assert CutColons(SAMPLE[0], 7) == 7 && CutColons(SAMPLE[0], 8) == 7;
    assert TrimColons(SAMPLE[0]) == SAMPLE[0][..7] == BEDROCK;
    LowercaseKeeps(BEDROCK);
    AuthIsNotBedrock(SAMPLE[3]);
  }

  lemma SampleLines()
    ensures Trim(SAMPLE[1]) == SAMPLE[1] && !IsHeader(SAMPLE[1])
    ensures Trim(SAMPLE[2]) == SAMPLE[2] && !IsHeader(SAMPLE[2])
    ensures Trim(SAMPLE[4]) == SAMPLE[4] && !IsHeader(SAMPLE[4])
  {
    PlainLine(SAMPLE[1]);
    PlainLine(SAMPLE[2]);
    PlainLine(SAMPLE[4]);
  }

  /** Which sections the sample's lines are in, on the first run and on the second. */
  lemma SampleSections()
    ensures SectionAt(SAMPLE, 2) == SectionAt(SAMPLE, 3) == BEDROCK
    ensures SectionAt(SAMPLE, 5) != BEDROCK && SectionWithout(SAMPLE, 5, true) == BEDROCK
  {
    hide IsHeader, SectionName;
    SampleHeaders();
    SampleLines();
    assert SectionAt(SAMPLE, 1) == BEDROCK && SectionAt(SAMPLE, 2) == BEDROCK;
    assert SectionAt(SAMPLE, 4) == SectionName(SAMPLE[3]);
    assert SectionWithout(SAMPLE, 1, true) == BEDROCK && SectionWithout(SAMPLE, 2, true) == BEDROCK;
    assert SectionWithout(SAMPLE, 3, true) == BEDROCK && SectionWithout(SAMPLE, 4, true) == BEDROCK;
  }

  lemma SampleKinds()
    ensures KindAt(SAMPLE, 1, true) == PortLine && KindAt(SAMPLE, 2, true) == CloneLine
    ensures KindAt(SAMPLE, 3, true) == AuthLine && KindAt(SAMPLE, 4, true) == OtherLine
    ensures KindIn(BEDROCK, SAMPLE[4], true) == PortLine
  {
    hide SectionAt, IsHeader, SectionName;
    SampleSections();
    SampleLines();
    SampleHeaders();
    HeaderKind(SAMPLE, 3, true);
  }

  /** The sample's last line is not settled: an auth-type header that becomes a plain line exposes it. */
  lemma SampleUnsettled(port: nat)
    ensures Accepted(SAMPLE, true) && !Settled(SAMPLE, 4, port, true)
  {
    hide KindIn, SectionAt, RewriteFirst;
    SampleKinds();
    SampleSections();
    HasFound(SAMPLE, 1, 5, true);
    HasFound(SAMPLE, 2, 5, true);
    HasFound(SAMPLE, 3, 5, true);
    assert Rewritten(PortLine, SAMPLE[4], port)[5] != SAMPLE[4][5];
  }

  // ---------------------------------------------------------------- the file as text

  /** Where the first line ends. */
  function LineEnd(text: string): (n: nat)
    ensures n <= |text| && (n < |text| ==> text[n] == '\n')
    ensures forall i | 0 <= i < n :: text[i] != '\n'
  {
    if text == "" || text[0] == '\n' then 0 else 1 + LineEnd(text[1..])
  }

  /** A carriage return goes with the line feed behind it. */
  function Chomp(line: string): string {
    if line != "" && line[|line| - 1] == '\r' then line[..|line| - 1] else line
  }

  /** `str::lines` */
  function Lines(text: string): seq<string>
    decreases |text|
  {
    var n := LineEnd(text);
    if text == "" then []
    else if n == |text| then [text]
    else [Chomp(text[..n])] + Lines(text[n + 1..])
  }

  datatype Newline = Lf | CrLf

  function Terminator(newline: Newline): string { if newline.CrLf? then "\r\n" else "\n" }

  /** The rendered lines as they are written: joined, with one terminator at the end. */
  function Written(lines: seq<string>, newline: Newline): string {
    if lines == [] then "" else lines[0] + Terminator(newline) + Written(lines[1..], newline)
  }

  predicate OneLine(line: string) { forall i | 0 <= i < |line| :: line[i] != '\n' }

  /** The same line up to a carriage return at its end. */
  predicate Alike(line: string, other: string) { line == other || line == other + "\r" }

  lemma {:induction false} LineEndOf(line: string, rest: string)
    requires OneLine(line)
    ensures LineEnd(line + "\n" + rest) == |line|
  {
    var text := line + "\n" + rest;
    assert text[|line|] == '\n' && forall i | 0 <= i < |line| :: text[i] == line[i];
  }

  lemma LinesOfOne(line: string, rest: string)
    requires OneLine(line)
    ensures Lines(line + "\n" + rest) == [Chomp(line)] + Lines(rest)
  {
    var text := line + "\n" + rest;
    LineEndOf(line, rest);
    assert text[..|line|] == line && text[|line| + 1..] == rest;
  }

  /** A line as it stands in front of its line feed. */
  function Ended(line: string, newline: Newline): string { if newline.CrLf? then line + "\r" else line }

  predicate Returns(line: string) { line != "" && line[|line| - 1] == '\r' }

  /** Reading a written line gives it back, except that a bare carriage return at its end is lost. */
  lemma ChompEnded(line: string, newline: Newline)
    ensures Alike(line, Chomp(Ended(line, newline)))
    ensures newline.CrLf? || !Returns(line) ==> Chomp(Ended(line, newline)) == line
  {
    assert (line + "\r")[..|line|] == line;
    if Returns(line) {
      assert line == line[..|line| - 1] + "\r";
    }
  }

  lemma WrittenFirst(lines: seq<string>, newline: Newline)
    requires lines != []
    ensures Written(lines, newline) == Ended(lines[0], newline) + "\n" + Written(lines[1..], newline)
  {
  }

  /** What was written is read back, line for line. */
  lemma {:induction false} LinesOfWritten(lines: seq<string>, newline: Newline)
    requires forall i | 0 <= i < |lines| :: OneLine(lines[i])
    ensures var back := Lines(Written(lines, newline));
      |back| == |lines| && forall i | 0 <= i < |lines| :: back[i] == Chomp(Ended(lines[i], newline))
  {
    hide Chomp, Terminator, Ended;
    if lines != [] {
      LinesOfWritten(lines[1..], newline);
      var line, rest := Ended(lines[0], newline), Lines(Written(lines[1..], newline));
      WrittenFirst(lines, newline);
      assert OneLine(line) by { EndedIsOneLine(lines[0], newline); }
      LinesOfOne(line, Written(lines[1..], newline));
      forall i | 0 <= i < |lines| ensures ([Chomp(line)] + rest)[i] == Chomp(Ended(lines[i], newline)) {
        assert i > 0 ==> lines[i] == lines[1..][i - 1];
      }
    }
  }

  lemma EndedIsOneLine(line: string, newline: Newline)
    requires OneLine(line)
    ensures OneLine(Ended(line, newline))
  {
  }

  lemma {:induction false} LinesAreLines(text: string)
    ensures forall i | 0 <= i < |Lines(text)| :: OneLine(Lines(text)[i])
    decreases |text|
  {
    var n := LineEnd(text);
    if text != "" && n < |text| {
      LinesAreLines(text[n + 1..]);
    }
  }

  lemma {:induction false} LeadingWithReturn(line: string, i: nat)
    requires i <= |line|
    ensures SkipSpace(line + "\r", i) == if SkipSpace(line, i) == |line| then |line| + 1 else SkipSpace(line, i)
    decreases |line| - i
  {
    if i < |line| {
      LeadingWithReturn(line, i + 1);
    }
  }

  lemma {:induction false} CutWithReturn(x: string, n: nat)
    requires n <= |x|
    ensures CutSpace(x + "\r", n) == CutSpace(x, n)
  {
    if n > 0 {
      CutWithReturn(x, n - 1);
    }
  }

  /** Both loops see the same in lines that are alike. */
  lemma AlikeReads(line: string, other: string)
    requires Alike(line, other)
    ensures Trim(line) == Trim(other) && (IsHeader(line) <==> IsHeader(other))
  {
    if line != other {
      LeadingWithReturn(other, 0);
      var x := TrimStart(other);
      if Leading(other) < |other| {
        assert TrimStart(line) == x + "\r";
        CutWithReturn(x, |x|);
        assert CutSpace(x + "\r", |x| + 1) == CutSpace(x, |x|);
      }
    }
  }

  lemma AlikeSections(lines: seq<string>, others: seq<string>, n: nat)
    requires n <= |lines| == |others| && forall i | 0 <= i < |lines| :: Alike(lines[i], others[i])
    ensures SectionAt(lines, n) == SectionAt(others, n)
  {
    forall i | 0 <= i < |lines| ensures Header(lines[i]) == Header(others[i]) {
      AlikeReads(lines[i], others[i]);
    }
    SectionsTrack(lines);
    SectionsTrack(others);
    assert Headers(lines) == Headers(others);
    TracksOnce(Sections(lines), Sections(others), Headers(lines), n);
  }

  lemma AlikeSaysAt(lines: seq<string>, others: seq<string>, i: nat, port: nat, kind: Kind)
    requires i < |lines| == |others| && forall k | 0 <= k < |lines| :: Alike(lines[k], others[k])
    ensures Says(lines, i, port, kind) == Says(others, i, port, kind)
  {
    AlikeSections(lines, others, i + 1);
    AlikeReads(lines[i], others[i]);
  }

  lemma {:induction false} SaysAlike(lines: seq<string>, others: seq<string>, n: nat, port: nat, kind: Kind)
    requires n <= |lines| == |others|
    requires forall i | 0 <= i < |lines| :: Says(lines, i, port, kind) == Says(others, i, port, kind)
    ensures SaysBefore(lines, n, port, kind) == SaysBefore(others, n, port, kind)
  {
    hide Says;
    if n > 0 {
      SaysAlike(lines, others, n - 1, port, kind);
    }
  }

  lemma AlikeSays(lines: seq<string>, others: seq<string>, port: nat, kind: Kind)
    requires |lines| == |others| && forall i | 0 <= i < |lines| :: Alike(lines[i], others[i])
    ensures SaysBefore(lines, |lines|, port, kind) == SaysBefore(others, |lines|, port, kind)
  {
    forall i | 0 <= i < |lines| ensures Says(lines, i, port, kind) == Says(others, i, port, kind) {
      AlikeSaysAt(lines, others, i, port, kind);
    }
    SaysAlike(lines, others, |lines|, port, kind);
  }

  lemma SettingIsOneLine(kind: Kind, port: nat)
    ensures OneLine(Setting(kind, port))
  {
    DecimalDigits(port);
  }

  lemma RewrittenIsOneLine(kind: Kind, line: string, port: nat)
    requires OneLine(line)
    ensures OneLine(Rewritten(kind, line, port))
  {
    SettingIsOneLine(kind, port);
    var indent, x := Indent(line), Setting(kind, port);
    assert OneLine(indent + x);
  }

  /** The lines of the output are lines. */
  lemma RewriteIsLines(lines: seq<string>, port: nat, floodgate: bool)
    requires forall i | 0 <= i < |lines| :: OneLine(lines[i])
    ensures forall i | 0 <= i < |lines| :: OneLine(Rewrite(lines, port, floodgate)[i])
  {
    forall i | 0 <= i < |lines| ensures OneLine(Rewrite(lines, port, floodgate)[i]) {
      RewriteAt(lines, i, port, floodgate);
      RewrittenIsOneLine(KindAt(lines, i, floodgate), lines[i], port);
    }
  }

  /** The file that the rewriting leaves behind passes the check that reads it back from the disk. */
  lemma WrittenFileMatches(text: string, newline: Newline, port: nat, floodgate: bool)
    requires Accepted(Lines(text), floodgate)
    ensures Matches(Lines(Written(Rewrite(Lines(text), port, floodgate), newline)), port, floodgate)
  {
    var out := Rewrite(Lines(text), port, floodgate);
    LinesAreLines(text);
    RewriteIsLines(Lines(text), port, floodgate);
    var back := ReadBack(out, newline);
    CheckAcceptsRewriting(Lines(text), port, floodgate);
    AlikeSays(out, back, port, PortLine);
    AlikeSays(out, back, port, CloneLine);
    AlikeSays(out, back, port, AuthLine);
  }

  lemma ReadBack(lines: seq<string>, newline: Newline) returns (back: seq<string>)
    requires forall i | 0 <= i < |lines| :: OneLine(lines[i])
    ensures back == Lines(Written(lines, newline)) && |back| == |lines|
    ensures forall i | 0 <= i < |lines| :: Alike(lines[i], back[i])
  {
    back := Lines(Written(lines, newline));
    LinesOfWritten(lines, newline);
    forall i | 0 <= i < |lines| ensures Alike(lines[i], back[i]) {
      ChompEnded(lines[i], newline);
    }
  }

  // ---------------------------------------------------------------- configuring the file twice

  predicate CrLfAt(text: string, i: nat) { i + 1 < |text| && text[i] == '\r' && text[i + 1] == '\n' }

  predicate HasCrLf(text: string) { exists i | 0 <= i < |text| :: CrLfAt(text, i) }

  function NewlineOf(text: string): Newline { if HasCrLf(text) then CrLf else Lf }

  /** What configuring makes of the file; None where it refuses. */
  function ConfigureText(text: string, port: nat, floodgate: bool): Option<string> {
    if Accepted(Lines(text), floodgate)
    then Some(Written(Rewrite(Lines(text), port, floodgate), NewlineOf(text))) else None
  }

  method ConfigureFile(text: string, port: nat, floodgate: bool) returns (out: Option<string>)
    ensures out == ConfigureText(text, port, floodgate)
  {
    var newline := NewlineOf(text);
    var rendered := Configure(Lines(text), port, floodgate);
    out := if rendered.Some? then Some(Written(rendered.value, newline)) else None;
  }

  lemma CrLfOf(line: string, rest: string)
    requires OneLine(line)
    ensures HasCrLf(line + "\n" + rest) <==> Returns(line) || HasCrLf(rest)
  {
    var text, n := line + "\n" + rest, |line| + 1;
    assert text[n - 1] == '\n';
    assert forall i | 0 <= i < |line| :: text[i] == line[i];
    assert forall i | 0 <= i < |rest| :: text[n + i] == rest[i];
    if HasCrLf(text) {
      var i :| 0 <= i < |text| && CrLfAt(text, i);
      assert i < n - 1 ==> i + 1 == n - 1;
      assert i >= n ==> CrLfAt(rest, i - n);
    }
    if Returns(line) {
      assert CrLfAt(text, n - 2);
    }
    if HasCrLf(rest) {
      var i :| 0 <= i < |rest| && CrLfAt(rest, i);
      assert CrLfAt(text, n + i);
    }
  }

  /** In a text without "\r\n" only the last line can end in a carriage return. */
  lemma {:induction false} BareReturns(text: string)
    requires !HasCrLf(text)
    ensures forall i | 0 <= i < |Lines(text)| ::
              Returns(Lines(text)[i]) <==> i == |Lines(text)| - 1 && Returns(text)
    decreases |text|
  {
    var n := LineEnd(text);
    if text != "" && n < |text| {
      var line, rest := text[..n], text[n + 1..];
      assert text == line + "\n" + rest;
      CrLfOf(line, rest);
      BareReturns(rest);
      assert Lines(text) == [line] + Lines(rest);
      assert Returns(text) <==> Returns(rest);
      assert rest != "" ==> Lines(rest) != [];
    }
  }

  lemma {:induction false} CrLfOfWritten(lines: seq<string>, newline: Newline)
    requires forall i | 0 <= i < |lines| :: OneLine(lines[i])
    ensures HasCrLf(Written(lines, newline)) <==> exists i | 0 <= i < |lines| :: newline.CrLf? || Returns(lines[i])
  {
    if lines != [] {
      CrLfOfWritten(lines[1..], newline);
      WrittenFirst(lines, newline);
      EndedIsOneLine(lines[0], newline);
      CrLfOf(Ended(lines[0], newline), Written(lines[1..], newline));
      assert Returns(Ended(lines[0], newline)) <==> newline.CrLf? || Returns(lines[0]);
      assert lines == [lines[0]] + lines[1..];
    }
  }

  lemma SettingEnds(kind: Kind, port: nat)
    requires !kind.OtherLine?
    ensures Setting(kind, port) != "" && !Returns(Setting(kind, port))
  {
    DecimalDigits(port);
  }

  /** A line of the output ends in a carriage return only where it was left alone. */
  lemma RewrittenReturns(lines: seq<string>, i: nat, port: nat, floodgate: bool)
    requires i < |lines|
    ensures Returns(Rewrite(lines, port, floodgate)[i]) <==> KindAt(lines, i, floodgate).OtherLine? && Returns(lines[i])
  {
    RewriteAt(lines, i, port, floodgate);
    if !KindAt(lines, i, floodgate).OtherLine? {
      SettingEnds(KindAt(lines, i, floodgate), port);
    }
  }

  /**
   The file has no "\r\n" and its last line, which is left as it is, ends in a bare
   carriage return: written with a line feed behind it, it makes the file look
   as if its lines ended in "\r\n".
   */
  predicate BareReturn(text: string, floodgate: bool) {
    var lines := Lines(text);
    !HasCrLf(text) && Returns(text) && lines != [] && KindAt(lines, |lines| - 1, floodgate).OtherLine?
  }

  /** After one configuration the line ends are taken for others exactly in that case. */
  lemma NewlineStays(text: string, port: nat, floodgate: bool)
    requires Lines(text) != []
    ensures var out, newline := Rewrite(Lines(text), port, floodgate), NewlineOf(text);
      && NewlineOf(Written(out, newline)) == (if BareReturn(text, floodgate) then CrLf else newline)
      && (!BareReturn(text, floodgate) ==>
            newline.CrLf? || forall i | 0 <= i < |out| :: !Returns(out[i]))
  {
    hide KindIn, SectionAt, RewriteFirst, Returns;
    var lines := Lines(text);
    var out := Rewrite(lines, port, floodgate);
    LinesAreLines(text);
    RewriteIsLines(lines, port, floodgate);
    CrLfOfWritten(out, NewlineOf(text));
    if !HasCrLf(text) {
      BareReturns(text);
      forall i | 0 <= i < |out|
        ensures Returns(out[i]) <==> i == |lines| - 1 && BareReturn(text, floodgate)
      {
        RewrittenReturns(lines, i, port, floodgate);
      }
      assert BareReturn(text, floodgate) ==> Returns(out[|lines| - 1]);
    } else {
      assert 0 <= 0 < |out|;
    }
  }

  /** Lines written with the same ends and read back whole come from one list only. */
  lemma WrittenOnce(a: seq<string>, b: seq<string>, newline: Newline)
    requires forall i | 0 <= i < |a| :: OneLine(a[i]) && (newline.CrLf? || !Returns(a[i]))
    requires forall i | 0 <= i < |b| :: OneLine(b[i]) && (newline.CrLf? || !Returns(b[i]))
    ensures Lines(Written(a, newline)) == a
    ensures Written(a, newline) == Written(b, newline) ==> a == b
  {
    LinesOfWritten(a, newline);
    LinesOfWritten(b, newline);
    forall i | 0 <= i < |a| ensures Chomp(Ended(a[i], newline)) == a[i] {
      ChompEnded(a[i], newline);
    }
    forall i | 0 <= i < |b| ensures Chomp(Ended(b[i], newline)) == b[i] {
      ChompEnded(b[i], newline);
    }
  }

  /** Files whose first line ends differently differ. */
  lemma EndsDiffer(a: seq<string>, b: seq<string>)
    requires a != [] && b != [] && OneLine(a[0]) && OneLine(b[0]) && !Returns(a[0])
    ensures Written(a, Lf) != Written(b, CrLf)
  {
    WrittenFirst(a, Lf);
    WrittenFirst(b, CrLf);
    EndedIsOneLine(b[0], CrLf);
    LineEndOf(a[0], Written(a[1..], Lf));
    LineEndOf(Ended(b[0], CrLf), Written(b[1..], CrLf));
    var x, y := Written(a, Lf), Written(b, CrLf);
    assert x[..LineEnd(x)] == a[0] && y[..LineEnd(y)] == Ended(b[0], CrLf);
  }

  lemma AlikeKinds(lines: seq<string>, others: seq<string>, i: nat, floodgate: bool)
    requires i < |lines| == |others| && forall k | 0 <= k < |lines| :: Alike(lines[k], others[k])
    ensures KindAt(lines, i, floodgate) == KindAt(others, i, floodgate)
  {
    AlikeSections(lines, others, i + 1);
    AlikeReads(lines[i], others[i]);
  }

  lemma {:induction false} AlikeHas(lines: seq<string>, others: seq<string>, n: nat, floodgate: bool, kind: Kind)
    requires n <= |lines| == |others| && forall k | 0 <= k < |lines| :: Alike(lines[k], others[k])
    ensures HasBefore(lines, n, floodgate, kind) == HasBefore(others, n, floodgate, kind)
  {
    hide KindAt, Alike;
    if n > 0 {
      AlikeKinds(lines, others, n - 1, floodgate);
      AlikeHas(lines, others, n - 1, floodgate, kind);
    }
  }

  /** The written file is accepted again. */
  lemma WrittenIsAccepted(text: string, port: nat, floodgate: bool)
    requires Accepted(Lines(text), floodgate)
    ensures Accepted(Lines(ConfigureText(text, port, floodgate).value), floodgate)
  {
    var out := Rewrite(Lines(text), port, floodgate);
    LinesAreLines(text);
    RewriteIsLines(Lines(text), port, floodgate);
    AcceptedAgain(Lines(text), port, floodgate);
    var back := ReadBack(out, NewlineOf(text));
    AlikeHas(out, back, |out|, floodgate, PortLine);
    AlikeHas(out, back, |out|, floodgate, CloneLine);
    AlikeHas(out, back, |out|, floodgate, AuthLine);
  }

  /** An accepted file has two lines at least. */
  lemma AcceptedIsLong(lines: seq<string>, floodgate: bool)
    requires Accepted(lines, floodgate)
    ensures |lines| >= 2
  {
    if |lines| == 1 {
      assert HasBefore(lines, 1, floodgate, PortLine) <==> KindAt(lines, 0, floodgate) == PortLine;
      assert HasBefore(lines, 1, floodgate, CloneLine) <==> KindAt(lines, 0, floodgate) == CloneLine;
    }
  }

  /** Where a bare carriage return is left at the end, the second run ends every line anew. */
  lemma BareReturnChanges(text: string, port: nat, floodgate: bool)
    requires Accepted(Lines(text), floodgate) && BareReturn(text, floodgate)
    ensures var once := ConfigureText(text, port, floodgate);
      once.Some? && ConfigureText(once.value, port, floodgate) != once
  {
    hide KindIn, SectionAt, RewriteFirst, Written, Accepted;
    var lines := Lines(text);
    var out := Rewrite(lines, port, floodgate);
    var once := Written(out, Lf);
    AcceptedIsLong(lines, floodgate);
    NewlineStays(text, port, floodgate);
    WrittenIsAccepted(text, port, floodgate);
    LinesAreLines(text);
    RewriteIsLines(lines, port, floodgate);
    LinesAreLines(once);
    RewriteIsLines(Lines(once), port, floodgate);
    AcceptedIsLong(Lines(once), floodgate);
    BareReturns(text);
    RewrittenReturns(lines, 0, port, floodgate);
    EndsDiffer(out, Rewrite(Lines(once), port, floodgate));
  }

  /** Everywhere else the second run reads what the first has rendered. */
  lemma SecondRunReads(text: string, port: nat, floodgate: bool)
    requires Accepted(Lines(text), floodgate) && !BareReturn(text, floodgate)
    ensures var out, newline := Rewrite(Lines(text), port, floodgate), NewlineOf(text);
      var once := Written(out, newline);
      && ConfigureText(once, port, floodgate) == Some(Written(Rewrite(out, port, floodgate), newline))
      && (ConfigureText(once, port, floodgate) == Some(once) <==> Rewrite(out, port, floodgate) == out)
  {
    hide KindIn, SectionAt, RewriteFirst, Written, Accepted, Returns, BareReturn;
    var lines, newline := Lines(text), NewlineOf(text);
    var out := Rewrite(lines, port, floodgate);
    var twice := Rewrite(out, port, floodgate);
    AcceptedIsLong(lines, floodgate);
    NewlineStays(text, port, floodgate);
    WrittenIsAccepted(text, port, floodgate);
    LinesAreLines(text);
    RewriteIsLines(lines, port, floodgate);
    RewriteIsLines(out, port, floodgate);
    forall i | 0 <= i < |twice| ensures newline.CrLf? || !Returns(twice[i]) {
      RewrittenReturns(out, i, port, floodgate);
    }
    WrittenOnce(out, twice, newline);
  }

  /**
   Configuring the written file once more leaves it as it is if and only if every
   line was left settled and no bare carriage return was left at the end.
   */
  lemma SecondRunChangesNothing(text: string, port: nat, floodgate: bool)
    requires Accepted(Lines(text), floodgate)
    ensures var once, lines := ConfigureText(text, port, floodgate), Lines(text);
      && once.Some?
      && (ConfigureText(once.value, port, floodgate) == once <==>
            !BareReturn(text, floodgate) && forall i | 0 <= i < |lines| :: Settled(lines, i, port, floodgate))
  {
    hide Accepted, Settled, BareReturn, Rewrite, Written, Lines;
    if BareReturn(text, floodgate) {
      BareReturnChanges(text, port, floodgate);
    } else {
      SecondRunReads(text, port, floodgate);
      SecondRewriteChangesNothing(Lines(text), port, floodgate);
    }
  }

  /** Without unindented auth-type headers and without a bare carriage return at the end one run is enough. */
  lemma OneRunIsEnough(text: string, port: nat, floodgate: bool)
    requires Accepted(Lines(text), floodgate) && !BareReturn(text, floodgate)
    requires forall i | 0 <= i < |Lines(text)| :: !IsAuthHeader(Lines(text)[i], floodgate)
    ensures var once := ConfigureText(text, port, floodgate);
      once.Some? && ConfigureText(once.value, port, floodgate) == once
  {
    hide Accepted, Settled, BareReturn, ConfigureText, IsAuthHeader;
    forall i | 0 <= i < |Lines(text)| ensures Settled(Lines(text), i, port, floodgate) {
      SettledWithoutAuthHeaders(Lines(text), i, port, floodgate);
    }
    SecondRunChangesNothing(text, port, floodgate);
  }

  lemma WrittenEnds(lines: seq<string>, newline: Newline)
    requires lines != []
    ensures !Returns(Written(lines, newline))
  {
    var text := Written(lines, newline);
    if |lines| > 1 {
      WrittenEnds(lines[1..], newline);
    }
  }

  /** A written file has no auth-type header and ends in a line feed. */
  lemma WrittenIsTame(text: string, port: nat, floodgate: bool)
    requires Accepted(Lines(text), floodgate)
    ensures var once := ConfigureText(text, port, floodgate).value;
      !BareReturn(once, floodgate)
      && forall i | 0 <= i < |Lines(once)| :: !IsAuthHeader(Lines(once)[i], floodgate)
  {
    hide KindIn, SectionAt, RewriteFirst, Accepted, IsAuthHeader;
    var lines := Lines(text);
    var out := Rewrite(lines, port, floodgate);
    AcceptedIsLong(lines, floodgate);
    WrittenEnds(out, NewlineOf(text));
    LinesAreLines(text);
    RewriteIsLines(lines, port, floodgate);
    var back := ReadBack(out, NewlineOf(text));
    forall i | 0 <= i < |back| ensures !IsAuthHeader(back[i], floodgate) {
      NoAuthHeadersLeft(lines, i, port, floodgate);
      AlikeAuthHeader(out[i], back[i], floodgate);
    }
  }

  lemma AlikeAuthHeader(line: string, other: string, floodgate: bool)
    requires Alike(line, other)
    ensures IsAuthHeader(line, floodgate) <==> IsAuthHeader(other, floodgate)
  {
    AlikeReads(line, other);
  }

  /** Two runs are always enough. */
  lemma TwoRunsAreEnough(text: string, port: nat, floodgate: bool)
    requires Accepted(Lines(text), floodgate)
    ensures var once := ConfigureText(text, port, floodgate);
      && once.Some?
      && var twice := ConfigureText(once.value, port, floodgate);
      && twice.Some? && ConfigureText(twice.value, port, floodgate) == twice
  {
    hide Accepted, BareReturn, IsAuthHeader, Rewrite, Written, Lines;
    var once := ConfigureText(text, port, floodgate).value;
    WrittenIsAccepted(text, port, floodgate);
    WrittenIsTame(text, port, floodgate);
    OneRunIsEnough(once, port, floodgate);
  }

  /** A line of letters, as the samples have them. */
  predicate Clean(line: string) { forall i | 0 <= i < |line| :: line[i] != '\n' && line[i] != '\r' }

  lemma CleanLine(line: string)
    requires Clean(line)
    ensures OneLine(line) && !Returns(line)
  {
  }

  lemma SampleIsClean(i: nat)
    requires i < |SAMPLE|
    ensures Clean(SAMPLE[i])
  {
  }

  /** The sample as a file changes again on the second run. */
  lemma OneRunIsNotEnough(port: nat)
    ensures var text := Written(SAMPLE, Lf);
      && Lines(text) == SAMPLE && !BareReturn(text, true)
      && var once := ConfigureText(text, port, true);
      && once.Some? && ConfigureText(once.value, port, true) != once
  {
    hide Accepted, Settled, Rewrite, ConfigureText, Clean, Written, Lines;
    var text, lines := Written(SAMPLE, Lf), SAMPLE;
    forall i | 0 <= i < |lines| ensures OneLine(lines[i]) && !Returns(lines[i]) {
      SampleIsClean(i);
      CleanLine(lines[i]);
    }
    WrittenOnce(lines, lines, Lf);
    WrittenEnds(lines, Lf);
    SampleUnsettled(port);
    SecondRunChangesNothing(text, port, true);
  }

  lemma TextOfLines(line: string, rest: string)
    requires Clean(line)
    ensures Lines(line + "\n" + rest) == [line] + Lines(rest)
    ensures HasCrLf(line + "\n" + rest) <==> HasCrLf(rest)
  {
    CleanLine(line);
    LinesOfOne(line, rest);
    CrLfOf(line, rest);
  }

  /** Three lines and a rest without a line feed. */
  lemma FourLines(a: string, b: string, c: string, d: string)
    requires Clean(a) && Clean(b) && Clean(c) && Clean(d)
    ensures var text := a + "\n" + (b + "\n" + (c + "\n" + (d + "\r")));
      Lines(text) == [a, b, c, d + "\r"] && !HasCrLf(text) && Returns(text)
  {
    hide Clean, Lines, HasCrLf;
    var last := d + "\r";
    LastLine(d);
    TextOfLines(c, last);
    TextOfLines(b, c + "\n" + last);
    TextOfLines(a, b + "\n" + (c + "\n" + last));
  }

  lemma LastLine(d: string)
    requires Clean(d)
    ensures Lines(d + "\r") == [d + "\r"] && !HasCrLf(d + "\r")
  {
    var text := d + "\r";
    assert LineEnd(text) == |text|;
  }

  const PLAIN: seq<string> := ["bedrock:", "port:1", "clone-remote-port:x", "x\r"]

  lemma PlainSections()
    ensures IsHeader(PLAIN[0]) && SectionName(PLAIN[0]) == BEDROCK
    ensures !IsHeader(PLAIN[1]) && Trim(PLAIN[1]) == PLAIN[1]
    ensures !IsHeader(PLAIN[2]) && Trim(PLAIN[2]) == PLAIN[2]
    ensures !IsHeader(PLAIN[3]) && Trim(PLAIN[3]) == "x"
  {
    SampleHeaders();
    PlainLine(PLAIN[1]);
    PlainLine(PLAIN[2]);
    PlainLine("x");
    assert PLAIN[3] == "x" + "\r";
    AlikeReads(PLAIN[3], "x");
  }

  lemma PlainIsAccepted()
    ensures Accepted(PLAIN, false) && KindAt(PLAIN, 3, false) == OtherLine
  {
    hide IsHeader, SectionName;
    PlainSections();
    assert SectionAt(PLAIN, 1) == BEDROCK && SectionAt(PLAIN, 2) == BEDROCK;
    assert SectionAt(PLAIN, 3) == BEDROCK && SectionAt(PLAIN, 4) == BEDROCK;
    assert KindAt(PLAIN, 1, false) == PortLine && KindAt(PLAIN, 2, false) == CloneLine;
    HasFound(PLAIN, 1, 4, false);
    HasFound(PLAIN, 2, 4, false);
  }

  /** A file without any auth-type line, every line settled, that the second run changes all the same. */
  lemma BareReturnIsNotEnough(port: nat)
    ensures var text := "bedrock:" + "\n" + ("port:1" + "\n" + ("clone-remote-port:x" + "\n" + ("x" + "\r")));
      && Lines(text) == PLAIN && BareReturn(text, false)
      && (forall i | 0 <= i < |PLAIN| :: Settled(PLAIN, i, port, false))
      && var once := ConfigureText(text, port, false);
      && once.Some? && ConfigureText(once.value, port, false) != once
  {
    hide Accepted, Settled, Rewrite, ConfigureText, Lines, KindAt, Returns, HasCrLf;
    var text := "bedrock:" + "\n" + ("port:1" + "\n" + ("clone-remote-port:x" + "\n" + ("x" + "\r")));
    FourLines("bedrock:", "port:1", "clone-remote-port:x", "x");
    assert "x" + "\r" == "x\r";
    PlainIsAccepted();
    forall i | 0 <= i < |PLAIN| ensures Settled(PLAIN, i, port, false) {
      SettledWithoutAuthHeaders(PLAIN, i, port, false);
    }
    BareReturnChanges(text, port, false);
  }
}
