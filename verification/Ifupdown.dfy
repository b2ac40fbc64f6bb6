/**
 Rewriting of ifupdown configuration text: removal of an interface's stanzas,
 and the include line of the main file.
 */
module Ifupdown {
  import opened PyText

  const CONFIG_DIR := "/etc/network/interfaces.d"
  const INCLUDE_PATTERN := "/etc/network/interfaces.d/*"
  const DEFAULT_MAIN := "auto lo\niface lo inet loopback\n"

  // ------------------------------------------------------------------- stanzas

  /** `iface NAME inet|inet6 METHOD`, with an optional comment. */
  predicate IsHeader(line: string, interface: string) {
    var w := Words(line);
    && |w| >= 4
    && w[0] == "iface" && w[1] == interface && (w[2] == "inet" || w[2] == "inet6")
    && (|w| == 4 || StartsWith(w[4], "#") || (exists i | 1 <= i < |w[3]| :: w[3][i] == '#'))
  }

  /** A blank or indented line goes on with the stanza above it. */
  predicate Continues(line: string) {
    IsBlank(line) || StartsWith(line, " ") || StartsWith(line, "\t")
  }

  /** Line `i` belongs to a stanza of the interface. */
  predicate InStanza(lines: seq<string>, interface: string, i: nat)
    requires i < |lines|
  {
    IsHeader(lines[i], interface) || (i > 0 && Continues(lines[i]) && InStanza(lines, interface, i - 1))
  }

  /** The lines outside the interface's stanzas among the first `n`, in order. */
  function Kept(lines: seq<string>, interface: string, n: nat): (r: seq<string>)
    requires n <= |lines|
    ensures |r| <= n
    ensures forall l <- r :: l in lines[..n]
  {
    if n == 0 then []
    else
      var before := Kept(lines, interface, n - 1);
      assert lines[..n] == lines[..n - 1] + [lines[n - 1]];
      if InStanza(lines, interface, n - 1) then before else before + [lines[n - 1]]
  }

  function StripStanzas(content: string, interface: string): string {
    var lines := SplitLines(content);
    Join(Kept(lines, interface, |lines|))
  }

  method StripIfupdownStanzas(content: string, interface: string) returns (r: string)
    ensures r == StripStanzas(content, interface)
  {
    var lines := SplitLines(content);
    var output, skipping := [], false;
    for i := 0 to |lines|
      invariant output == Kept(lines, interface, i)
      invariant skipping == (i > 0 && InStanza(lines, interface, i - 1))
    {
      var line := lines[i];
      if skipping {
        if IsBlank(line) || StartsWith(line, " ") || StartsWith(line, "\t") {
          continue;
        }
        skipping := false;
      }
      if IsHeader(line, interface) {
        skipping := true;
        continue;
      }
      output := output + [line];
    }
    return Join(output);
  }

  /** No stanza header of the interface is left. */
  lemma {:induction false} NoHeaderIsKept(lines: seq<string>, interface: string, n: nat)
    requires n <= |lines|
    ensures forall l <- Kept(lines, interface, n) :: !IsHeader(l, interface)
  {
    if n > 0 { NoHeaderIsKept(lines, interface, n - 1); }
  }

  lemma {:induction false} NothingInStanza(lines: seq<string>, interface: string, i: nat)
    requires i < |lines| && forall l <- lines :: !IsHeader(l, interface)
    ensures !InStanza(lines, interface, i)
  {
    if i > 0 { NothingInStanza(lines, interface, i - 1); }
  }

  /** Without headers every line is kept. */
  lemma {:induction false} AllKept(lines: seq<string>, interface: string, n: nat)
    requires n <= |lines| && forall l <- lines :: !IsHeader(l, interface)
    ensures Kept(lines, interface, n) == lines[..n]
  {
    if n > 0 {
      AllKept(lines, interface, n - 1);
      NothingInStanza(lines, interface, n - 1);
      assert lines[..n] == lines[..n - 1] + [lines[n - 1]];
    }
  }

  lemma {:induction false} KeptAreLines(lines: seq<string>, interface: string, n: nat)
    requires n <= |lines| && AreLines(lines)
    ensures AreLines(Kept(lines, interface, n))
    ensures n < |lines| ==> forall l <- Kept(lines, interface, n) :: IsComplete(l)
  {
    if n > 0 {
      KeptAreLines(lines, interface, n - 1);
      var before := Kept(lines, interface, n - 1);
      assert lines[n - 1] in lines;
      assert n < |lines| ==> IsComplete(lines[n - 1]);
      forall i | 0 <= i < |before|
        ensures IsComplete(before[i])
      {
        assert before[i] in before;
      }
    }
  }

  lemma LinesOfStripped(content: string, interface: string)
    ensures var lines := SplitLines(content);
            SplitLines(StripStanzas(content, interface)) == Kept(lines, interface, |lines|)
  {
    var lines := SplitLines(content);
    KeptAreLines(lines, interface, |lines|);
    SplitJoined(Kept(lines, interface, |lines|));
  }

  /** A second pass finds nothing to remove. */
  lemma StripIsIdempotent(content: string, interface: string)
    ensures StripStanzas(StripStanzas(content, interface), interface) == StripStanzas(content, interface)
  {
    var lines := SplitLines(content);
    var kept := Kept(lines, interface, |lines|);
    LinesOfStripped(content, interface);
    NoHeaderIsKept(lines, interface, |lines|);
    AllKept(kept, interface, |kept|);
    assert kept[..|kept|] == kept;
  }

  /** Stripping leaves a text alone exactly when it has no stanza of the interface. */
  lemma StripFixes(content: string, interface: string)
    ensures StripStanzas(content, interface) == content <==> forall l <- SplitLines(content) :: !IsHeader(l, interface)
  {
    var lines := SplitLines(content);
    if forall l <- lines :: !IsHeader(l, interface) {
      AllKept(lines, interface, |lines|);
      assert lines[..|lines|] == lines;
    } else {
      LinesOfStripped(content, interface);
      NoHeaderIsKept(lines, interface, |lines|);
    }
  }

  // ------------------------------------------------------------------- include

  predicate IsInclude(line: string) {
    Words(line) == ["source", INCLUDE_PATTERN] || Words(line) == ["source-directory", CONFIG_DIR]
  }

  predicate HasInclude(content: string) {
    exists l <- SplitLines(content) :: IsInclude(l)
  }

  function WithInclude(content: string): string {
    if HasInclude(content) then content
    else RStrip(content) + "\n\n" + SourceLine()
  }

  function SourceLine(): string {
    Spaced(["source", INCLUDE_PATTERN]) + "\n"
  }

  /** Some include line of the text stands outside the interface's stanzas. */
  ghost predicate IncludeOutsideStanzas(content: string, interface: string) {
    var lines := SplitLines(content);
    exists i | 0 <= i < |lines| :: IsInclude(lines[i]) && !InStanza(lines, interface, i)
  }

  lemma IncludeOfWords(pattern: string)
    requires IsWord("source") && IsWord(pattern)
    ensures var line := Spaced(["source", pattern]) + "\n";
            Words(line) == ["source", pattern] && IsComplete(line) && !Continues(line)
  {
    var words, line := ["source", pattern], Spaced(["source", pattern]) + "\n";
    WordsOfLine(words);
    SpacedIsLine(words);
    assert line[0] == Spaced(words)[0] && line[0] in line;
    assert ' ' in " " && IsSpace(' ') && IsSpace('\t');
  }

  lemma SourceLineIncludes()
    ensures IsInclude(SourceLine()) && IsComplete(SourceLine()) && !Continues(SourceLine())
  {
    assert IsWord("source") && IsWord(INCLUDE_PATTERN);
    IncludeOfWords(INCLUDE_PATTERN);
  }

  lemma LineAtEnd(head: string, line: string, interface: string)
    requires head != "" && head[|head| - 1] == '\n'
    requires IsInclude(line) && IsLine(line) && !Continues(line)
    ensures HasInclude(head + line) && IncludeOutsideStanzas(head + line, interface)
  {
    AppendLine(head, line);
    var lines := SplitLines(head + line);
    assert lines[|lines| - 1] == line && line in lines;
    assert !IsHeader(line, interface);
    assert !InStanza(lines, interface, |lines| - 1);
  }

  /** The appended line is an include line, and never inside a stanza. */
  lemma AppendedInclude(content: string, interface: string)
    requires !HasInclude(content)
    ensures HasInclude(WithInclude(content)) && IncludeOutsideStanzas(WithInclude(content), interface)
  {
    SourceLineIncludes();
    LineAtEnd(RStrip(content) + "\n\n", SourceLine(), interface);
  }

  /** What one uninterrupted run makes of the main file's text. */
  function Configured(content: string, interface: string): string {
    StripStanzas(WithInclude(content), interface)
  }

  lemma {:induction false} KeptExactly(lines: seq<string>, interface: string, n: nat, l: string)
    requires n <= |lines|
    ensures l in Kept(lines, interface, n) <==> exists i | 0 <= i < n :: lines[i] == l && !InStanza(lines, interface, i)
  {
    if n > 0 {
      KeptExactly(lines, interface, n - 1, l);
      if lines[n - 1] == l && !InStanza(lines, interface, n - 1) {
        assert Kept(lines, interface, n)[|Kept(lines, interface, n)| - 1] == l;
      }
    }
  }

  /** The include line survives stripping exactly when one stands outside the stanzas. */
  lemma IncludeSurvives(content: string, interface: string)
    ensures HasInclude(StripStanzas(content, interface)) <==> IncludeOutsideStanzas(content, interface)
  {
    var lines := SplitLines(content);
    LinesOfStripped(content, interface);
    forall l
      ensures l in Kept(lines, interface, |lines|) <==> exists i | 0 <= i < |lines| ::
              lines[i] == l && !InStanza(lines, interface, i)
    {
      KeptExactly(lines, interface, |lines|, l);
    }
  }

  /**
   Configuring the main file again changes nothing exactly when the file had no
   include line (so one was appended) or has one outside the interface's stanzas.
   */
  lemma ConfiguringTwiceExactlyWhen(content: string, interface: string)
    ensures Configured(Configured(content, interface), interface) == Configured(content, interface)
       <==> (!HasInclude(content) || IncludeOutsideStanzas(content, interface))
    ensures HasInclude(Configured(content, interface)) <==>
            (!HasInclude(content) || IncludeOutsideStanzas(content, interface))
  {
    var once := Configured(content, interface);
    IncludeSurvives(WithInclude(content), interface);
    if !HasInclude(content) {
      AppendedInclude(content, interface);
    }
    if HasInclude(once) {
      StripIsIdempotent(WithInclude(content), interface);
    } else {
      AppendedInclude(once, interface);
      IncludeSurvives(WithInclude(once), interface);
    }
  }

  lemma TwoLines(a: string, b: string)
    requires IsComplete(a) && IsLine(b)
    ensures SplitLines(a + b) == [a, b]
  {
    AppendLine(a, b);
    OneLine(a);
  }

  /** An indented include right below a stanza header is lost with the stanza. */
  lemma IndentedIncludeIsLost(header: string, interface: string)
    requires IsHeader(header, interface) && IsComplete(header)
    ensures var content := header + ([' '] + SourceLine());
            HasInclude(content) && !HasInclude(Configured(content, interface))
  {
    SourceLineIncludes();
    IndentedInclude([' '] + SourceLine(), SourceLine());
    LostBelowHeader(header, [' '] + SourceLine(), interface);
  }

  lemma LostBelowHeader(header: string, line: string, interface: string)
    requires IsHeader(header, interface) && IsComplete(header)
    requires IsInclude(line) && IsLine(line) && Continues(line)
    ensures HasInclude(header + line) && !HasInclude(Configured(header + line, interface))
  {
    TwoLines(header, line);
    var lines := [header, line];
    assert line in lines;
    assert InStanza(lines, interface, 0) && InStanza(lines, interface, 1);
    IncludeSurvives(header + line, interface);
  }

  lemma IndentedInclude(line: string, source: string)
    requires line == [' '] + source && IsInclude(source) && IsLine(source)
    ensures IsInclude(line) && IsLine(line) && Continues(line)
  {
    assert line[1..] == source;
    assert line[..1] == " ";
  }
}
