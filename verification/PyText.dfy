/**
 The string operations the text rewriters rely on: lines with their line
 breaks, white-space words and stripping. Line breaks are `\n`.
 */
module PyText {

  /** `str.isspace` of one character. */
  predicate IsSpace(c: char) {
    var n := c as int;
    || 0x09 <= n <= 0x0D || 0x1C <= n <= 0x20 || n == 0x85 || n == 0xA0 || n == 0x1680
    || 0x2000 <= n <= 0x200A || n == 0x2028 || n == 0x2029 || n == 0x202F || n == 0x205F || n == 0x3000
  }

  predicate IsBlank(s: string) {
    forall c <- s :: IsSpace(c)
  }

  predicate StartsWith(s: string, prefix: string) {
    |prefix| <= |s| && s[..|prefix|] == prefix
  }

  predicate EndsWith(s: string, suffix: string) {
    |suffix| <= |s| && s[|s| - |suffix|..] == suffix
  }

  function LStrip(s: string): (r: string)
    ensures |r| <= |s|
    ensures r != "" ==> !IsSpace(r[0])
  {
    if s != "" && IsSpace(s[0]) then LStrip(s[1..]) else s
  }

  function RStrip(s: string): (r: string)
    ensures |r| <= |s|
    ensures r != "" ==> !IsSpace(r[|r| - 1])
  {
    if s != "" && IsSpace(s[|s| - 1]) then RStrip(s[..|s| - 1]) else s
  }

  // --------------------------------------------------------------------- lines

  /** A piece of text with at most one line break, at its end. */
  predicate IsLine(s: string) {
    s != "" && forall i | 0 <= i < |s| - 1 :: s[i] != '\n'
  }

  predicate IsComplete(s: string) {
    IsLine(s) && s[|s| - 1] == '\n'
  }

  /** Lines as `splitlines(keepends=True)` returns them: only the last may lack its line break. */
  predicate AreLines(lines: seq<string>) {
    && (forall l <- lines :: IsLine(l))
    && (forall i | 0 <= i < |lines| - 1 :: IsComplete(lines[i]))
  }

  /** The first line of a nonempty text. */
  function FirstLine(s: string): (r: string)
    requires s != ""
    ensures IsLine(r) && StartsWith(s, r)
    ensures |r| < |s| ==> IsComplete(r)
  {
    if s[0] == '\n' || |s| == 1 then s[..1]
    else [s[0]] + FirstLine(s[1..])
  }

  function SplitLines(s: string): (lines: seq<string>)
    ensures AreLines(lines)
    ensures Join(lines) == s
    decreases |s|
  {
    if s == "" then []
    else
      var first := FirstLine(s);
      var rest := SplitLines(s[|first|..]);
      assert s == first + s[|first|..];
      [first] + rest
  }

  function Join(lines: seq<string>): string {
    if lines == [] then "" else lines[0] + Join(lines[1..])
  }

  lemma {:induction false} FirstLineOf(line: string, rest: string)
    requires IsLine(line) && (rest != "" ==> IsComplete(line))
    ensures FirstLine(line + rest) == line
  {
    var s := line + rest;
    if line[0] == '\n' || |s| == 1 {
      assert |line| == 1;
      assert s[..1] == line;
    } else {
      assert |line| > 1;
      assert s[1..] == line[1..] + rest && [line[0]] + line[1..] == line;
      FirstLineOf(line[1..], rest);
    }
  }

  /** Splitting what was joined gives the same lines. */
  lemma {:induction false} SplitJoined(lines: seq<string>)
    requires AreLines(lines)
    ensures SplitLines(Join(lines)) == lines
  {
    if lines != [] {
      var rest := Join(lines[1..]);
      assert rest != "" ==> lines[1..] != [];
      FirstLineOf(lines[0], rest);
      assert (lines[0] + rest)[|lines[0]|..] == rest;
      assert forall l <- lines[1..] :: l in lines;
      assert forall i | 0 <= i < |lines[1..]| - 1 :: lines[1..][i] == lines[i + 1];
      SplitJoined(lines[1..]);
    }
  }

  lemma {:induction false} JoinConcat(a: seq<string>, b: seq<string>)
    ensures Join(a + b) == Join(a) + Join(b)
  {
    if a == [] {
      assert a + b == b;
    } else {
      assert (a + b)[1..] == a[1..] + b;
      JoinConcat(a[1..], b);
    }
  }

  lemma LinesConcat(x: seq<string>, y: seq<string>)
    requires AreLines(x) && AreLines(y) && forall i | 0 <= i < |x| :: IsComplete(x[i])
    ensures AreLines(x + y)
  {
    hide IsLine, IsComplete;
    forall i | 0 <= i < |x + y| - 1
      ensures IsComplete((x + y)[i])
    {
      assert (x + y)[i] == if i < |x| then x[i] else y[i - |x|];
    }
  }

  /** Lines that end a text can be split off it. */
  lemma SplitConcat(a: string, b: string)
    requires a == "" || a[|a| - 1] == '\n'
    ensures SplitLines(a + b) == SplitLines(a) + SplitLines(b)
  {
    hide *;
    var x, y := SplitLines(a), SplitLines(b);
    JoinConcat(x, y);
    LastLineComplete(x);
    LinesConcat(x, y);
    SplitJoined(x + y);
  }

  lemma {:induction false} LastLineComplete(lines: seq<string>)
    requires AreLines(lines)
    ensures lines != [] ==> var last, text := lines[|lines| - 1], Join(lines);
                            last != "" && text != "" && text[|text| - 1] == last[|last| - 1]
    ensures (Join(lines) == "" || Join(lines)[|Join(lines)| - 1] == '\n') ==> forall i | 0 <= i < |lines| ::
            IsComplete(lines[i])
  {
    if |lines| > 1 {
      assert forall l <- lines[1..] :: l in lines;
      assert forall i | 0 <= i < |lines[1..]| - 1 :: lines[1..][i] == lines[i + 1];
      LastLineComplete(lines[1..]);
      assert lines[0] in lines && lines[1..][|lines| - 2] == lines[|lines| - 1];
    } else if |lines| == 1 {
      assert lines[0] in lines && lines[1..] == [] && Join(lines) == lines[0];
    }
  }

  // --------------------------------------------------------------------- words

  /** The longest prefix without white space. */
  function Word(s: string): (w: string)
    ensures StartsWith(s, w)
    ensures forall c <- w :: !IsSpace(c)
  {
    if s == "" || IsSpace(s[0]) then "" else [s[0]] + Word(s[1..])
  }

  /** `str.split()`. */
  function Words(s: string): seq<string>
    decreases |s|
  {
    if s == "" then []
    else if IsSpace(s[0]) then Words(s[1..])
    else [Word(s)] + Words(s[|Word(s)|..])
  }

  predicate IsWord(w: string) {
    w != "" && forall c <- w :: !IsSpace(c)
  }

  lemma {:induction false} WordOf(w: string, rest: string)
    requires (forall c <- w :: !IsSpace(c)) && (rest == "" || IsSpace(rest[0]))
    ensures Word(w + rest) == w
  {
    if w == "" {
      assert w + rest == rest;
    } else {
      assert w[0] in w && (w + rest)[1..] == w[1..] + rest && (w + rest)[0] == w[0];
      assert forall c <- w[1..] :: c in w;
      WordOf(w[1..], rest);
      assert [w[0]] + w[1..] == w;
    }
  }

  lemma WordsCons(w: string, rest: string)
    requires IsWord(w) && (rest == "" || IsSpace(rest[0]))
    ensures Words(w + rest) == [w] + Words(rest)
  {
    WordOf(w, rest);
    assert w[0] in w && (w + rest)[0] == w[0] && (w + rest)[|w|..] == rest;
  }

  lemma {:induction false} WordsOfBlank(s: string)
    requires IsBlank(s)
    ensures Words(s) == []
  {
    if s != "" {
      assert s[0] in s && forall c <- s[1..] :: c in s;
      WordsOfBlank(s[1..]);
    }
  }

  /** Words written with one space between them and a line break behind are read back. */
  lemma {:induction false} WordsOfLine(words: seq<string>)
    requires words != [] && forall w <- words :: IsWord(w)
    ensures Words(Spaced(words) + "\n") == words
  {
    var w, rest := words[0], words[1..];
    if rest == [] {
      WordsCons(w, "\n");
      WordsOfBlank("\n");
    } else {
      var tail := Spaced(rest) + "\n";
      WordsOfLine(rest);
      assert Spaced(words) + "\n" == w + ([' '] + tail);
      assert ([' '] + tail)[1..] == tail;
      WordsCons(w, [' '] + tail);
    }
  }

  /** `" ".join(words)`. */
  function Spaced(words: seq<string>): string {
    if words == [] then ""
    else if |words| == 1 then words[0]
    else words[0] + ([' '] + Spaced(words[1..]))
  }

  lemma {:induction false} SpacedHasNoBreak(words: seq<string>)
    requires forall w <- words :: IsWord(w)
    ensures forall c <- Spaced(words) :: c != '\n'
  {
    if words != [] {
      assert IsWord(words[0]);
      assert forall c <- words[0] :: c != '\n' by { assert IsSpace('\n'); }
      SpacedHasNoBreak(words[1..]);
    }
  }

  lemma SpacedIsLine(words: seq<string>)
    requires words != [] && forall w <- words :: IsWord(w)
    ensures IsComplete(Spaced(words) + "\n") && Spaced(words) != "" && !IsSpace(Spaced(words)[0])
  {
    SpacedHasNoBreak(words);
    var text := Spaced(words);
    assert forall i | 0 <= i < |text| :: text[i] in text;
    assert forall i | 0 <= i < |text| :: (text + "\n")[i] == text[i];
    assert IsWord(words[0]) && words[0][0] in words[0] && Spaced(words)[0] == words[0][0];
  }

  lemma OneLine(line: string)
    requires IsLine(line)
    ensures SplitLines(line) == [line]
  {
    FirstLineOf(line, "");
    assert line + "" == line && line[|line|..] == "";
  }

  /** A line at the end of a text is its last line. */
  lemma AppendLine(head: string, line: string)
    requires (head == "" || head[|head| - 1] == '\n') && IsLine(line)
    ensures SplitLines(head + line) == SplitLines(head) + [line]
  {
    SplitConcat(head, line);
    OneLine(line);
  }
}
