/**
 The two patterns that decide what is rewritten in ifupdown's files, as regular expressions have
 them: white space, words, and what may follow.
 */
module IfupdownPattern {
  import opened PyText
  import opened Ifupdown

  /** `\s+` and `\S+`. */
  predicate Spaces(s: string) { s != "" && IsBlank(s) }

  /** What is left behind a word: nothing, or white space and more. */
  predicate Ends(rest: string) { rest == "" || IsSpace(rest[0]) }

  // ------------------------------------------------------------------ taking words off

  function Leading(s: string): (k: nat)
    ensures k <= |s| && IsBlank(s[..k]) && (k < |s| ==> !IsSpace(s[k]))
  {
    if s == "" || !IsSpace(s[0]) then 0
    else
      var k := Leading(s[1..]);
      assert s[..k + 1] == [s[0]] + s[1..][..k];
      k + 1
  }

  lemma {:induction false} BlankBefore(a: string, s: string)
    requires IsBlank(a)
    ensures Words(a + s) == Words(s)
  {
    if a == "" {
      assert a + s == s;
    } else {
      assert a[0] in a && (forall c <- a[1..] :: c in a) && (a + s)[1..] == a[1..] + s;
      BlankBefore(a[1..], s);
    }
  }

  /** The first word of a text, with the white space before it and the rest behind it. */
  lemma Peel(s: string) returns (a: string, rest: string)
    requires Words(s) != []
    ensures s == a + Words(s)[0] + rest && IsBlank(a) && Ends(rest) && Words(rest) == Words(s)[1..]
    ensures IsWord(Words(s)[0])
  {
    hide Words, Word, IsWord, IsBlank, IsSpace, Leading;
    var k := Leading(s);
    a := s[..k];
    var t := s[k..];
    assert s == a + t;
    BlankBefore(a, t);
    NoWords();
    var w := Word(t);
    rest := t[|w|..];
    WordIsAll(t);
    assert t == w + rest;
    WordsCons(w, rest);
  }

  lemma NoWords()
    ensures Words("") == []
  {
  }

  lemma {:induction false} WordIsAll(s: string)
    ensures var w := Word(s); |w| <= |s| && s[..|w|] == w && Ends(s[|w|..])
    ensures s != "" && !IsSpace(s[0]) ==> IsWord(Word(s))
  {
    if s != "" && !IsSpace(s[0]) {
      WordIsAll(s[1..]);
      assert s[1..][|Word(s[1..])|..] == s[|Word(s)|..];
    }
  }

  lemma SomeWord(s: string)
    requires s != "" && !IsSpace(s[0])
    ensures Words(s) != []
  {
  }

  /** A rest is blank when no word is in it. */
  lemma NoWordsIsBlank(s: string)
    requires Words(s) == []
    ensures IsBlank(s)
  {
    var k := Leading(s);
    var t := s[k..];
    assert s == s[..k] + t;
    BlankBefore(s[..k], t);
    if t != "" { SomeWord(t); }
    assert s[..k] == s;
  }

  lemma Behind(w: string, a: string, s: string)
    requires IsWord(w) && Spaces(a)
    ensures Words(w + (a + s)) == [w] + Words(s)
  {
    assert (a + s)[0] == a[0] && a[0] in a;
    WordsCons(w, a + s);
    BlankBefore(a, s);
  }

  // ---------------------------------------------------------------------- the header

  /** The pieces of a header that the pattern tells apart. */
  datatype Pieces = Pieces(
    before: string, b: string, c: string, family: string, d: string, how: string, after: string, comment: string)
  {
    predicate Valid() {
      && IsBlank(before) && Spaces(b) && Spaces(c) && Spaces(d) && (family == "inet" || family == "inet6")
      && IsWord(how) && IsBlank(after) && (comment == "" || comment[0] == '#')
    }

    function Text(interface: string): string {
      before + ("iface" + (b + (interface + (c + (family + (d + (how + (after + comment))))))))
    }
  }

  lemma TailWords(how: string, after: string, comment: string)
    requires IsWord(how) && IsBlank(after) && (comment == "" || comment[0] == '#')
    ensures var w := Words(how + (after + comment));
            && w != []
            && (|w| == 1 || StartsWith(w[1], "#") || exists i | 1 <= i < |w[0]| :: w[0][i] == '#')
  {
    var t := after + comment;
    if comment == "" {
      assert t == after && how + t == how + after;
      if after != "" { assert after[0] in after; }
      WordsCons(how, after);
      WordsOfBlank(after);
    } else if after != "" {
      Behind(how, after, comment);
      HashWord(comment);
    } else {
      assert t == comment;
      var s := how + comment;
      assert s[0] == how[0] && how[0] in how && s[|how|] == '#' && !IsSpace('#');
      WordKeeps(how, comment);
      WordIsAll(s);
      assert Words(s) == [Word(s)] + Words(s[|Word(s)|..]);
      assert Word(s)[|how|] == s[..|Word(s)|][|how|] == '#';
      assert |how| >= 1 && Words(s)[0][|how|] == '#';
    }
  }

  lemma HashWord(comment: string)
    requires comment != "" && comment[0] == '#'
    ensures Words(comment) != [] && StartsWith(Words(comment)[0], "#")
  {
    assert !IsSpace('#');
    WordIsAll(comment);
    var w := Word(comment);
    assert Words(comment) == [w] + Words(comment[|w|..]);
    assert w[0] == comment[..|w|][0] && w[..1] == "#";
  }

  lemma {:induction false} WordKeeps(how: string, comment: string)
    requires (forall c <- how :: !IsSpace(c)) && comment != "" && !IsSpace(comment[0])
    ensures |Word(how + comment)| > |how|
  {
    var s := how + comment;
    if how == "" {
      assert s == comment;
    } else {
      assert s[0] == how[0] && how[0] in how && s[1..] == how[1..] + comment;
      assert forall c <- how[1..] :: c in how;
      WordKeeps(how[1..], comment);
    }
  }

  /** A text in these pieces is a header. */
  lemma PiecesAreHeader(p: Pieces, interface: string)
    requires p.Valid() && IsWord(interface)
    ensures IsHeader(p.Text(interface), interface)
  {
    hide Words, IsWord, StartsWith;
    var tail := p.how + (p.after + p.comment);
    IfaceWords();
    BlankBefore(p.before, "iface" + (p.b + (interface + (p.c + (p.family + (p.d + tail))))));
    Behind("iface", p.b, interface + (p.c + (p.family + (p.d + tail))));
    Behind(interface, p.c, p.family + (p.d + tail));
    Behind(p.family, p.d, tail);
    TailWords(p.how, p.after, p.comment);
    var w := Words(tail);
    var all := ["iface", interface, p.family] + w;
    assert Words(p.Text(interface)) == all;
    assert all[3] == w[0] && (|w| > 1 ==> all[4] == w[1]) && |all| == 3 + |w|;
    assert all[0] == "iface" && all[1] == interface && all[2] == p.family;
  }

  lemma IfaceWords()
    ensures IsWord("iface") && IsWord("inet") && IsWord("inet6")
  {
  }

  /** How the last word of a header and what follows it are told apart. */
  lemma TailPieces(rest: string) returns (d: string, how: string, after: string, comment: string)
    requires Words(rest) != [] && rest != "" && IsSpace(rest[0])
    requires var w := Words(rest);
             |w| == 1 || StartsWith(w[1], "#") || exists i | 1 <= i < |w[0]| :: w[0][i] == '#'
    ensures rest == d + (how + (after + comment))
    ensures Spaces(d) && IsWord(how) && IsBlank(after) && (comment == "" || comment[0] == '#')
  {
    hide Words;
    var w := Words(rest);
    var last: string;
    d, last := Peel(rest);
    how := w[0];
    SpaceFirst(rest, d, how, last);
    if |w| == 1 {
      NoWordsIsBlank(last);
      after, comment := last, "";
      assert last + "" == last;
    } else if StartsWith(w[1], "#") {
      var more: string;
      assert Words(last) == w[1..];
      after, more := Peel(last);
      comment := w[1] + more;
      assert w[1][0] == w[1][..1][0] == '#' && comment[0] == w[1][0];
      assert last == after + comment;
    } else {
      var i :| 1 <= i < |w[0]| && w[0][i] == '#';
      how, after, comment := w[0][..i], "", w[0][i..] + last;
      assert forall c <- how :: c in w[0];
      assert rest == d + (w[0] + last) && w[0] == how + w[0][i..];
      assert w[0] + last == how + (after + comment);
    }
  }

  lemma SpaceFirst(rest: string, d: string, w: string, last: string)
    requires rest == d + w + last && rest != "" && IsSpace(rest[0]) && IsBlank(d) && IsWord(w)
    ensures Spaces(d)
  {
    assert w[0] in w;
    assert d == "" ==> rest == w + last;
  }

  /**
   A line is a stanza header of the interface exactly when the pattern matches it: white space,
   `iface`, the name, `inet` or `inet6` and a method, each behind white space, and then nothing but
   white space and a comment.
   */
  lemma HeaderExactlyWhen(line: string, interface: string)
    requires IsWord(interface)
    ensures IsHeader(line, interface) <==> exists p: Pieces :: p.Valid() && line == p.Text(interface)
  {
    hide Words, StartsWith, IsWord;
    if p: Pieces :| p.Valid() && line == p.Text(interface) { PiecesAreHeader(p, interface); }
    if IsHeader(line, interface) {
      var w := Words(line);
      var before, r1 := Peel(line);
      var b, r2 := Peel(r1);
      var c, r3 := Peel(r2);
      assert Words(r1) == w[1..] && Words(r2) == w[2..] && Words(r3) == w[3..];
      FirstIsSpace(r1, w[1]);
      FirstIsSpace(r2, w[2]);
      FirstIsSpace(r3, w[3]);
      SpaceFirst(r1, b, w[1], r2);
      SpaceFirst(r2, c, w[2], r3);
      assert w[3..][0] == w[3] && (|w| > 4 ==> w[3..][1] == w[4]);
      var d, how, after, comment := TailPieces(r3);
      var p := Pieces(before, b, c, w[2], d, how, after, comment);
      assert line == p.Text(interface);
    }
  }

  lemma FirstIsSpace(rest: string, w: string)
    requires Ends(rest) && Words(rest) != []
    ensures rest != "" && IsSpace(rest[0])
  {
  }

  /** Between the header and the line all lines are blank or indented by a space or tab. */
  ghost predicate Below(lines: seq<string>, header: nat, i: nat)
    requires header <= i < |lines|
  {
    forall k | header < k <= i ::
      (forall c <- lines[k] :: IsSpace(c)) || (lines[k] != "" && (lines[k][0] == ' ' || lines[k][0] == '\t'))
  }

  /** A line belongs to a stanza exactly when it is a header or continues one above it. */
  lemma {:induction false} InStanzaExactlyWhen(lines: seq<string>, interface: string, i: nat)
    requires i < |lines|
    ensures InStanza(lines, interface, i) <==>
            exists h: nat :: h <= i && IsHeader(lines[h], interface) && Below(lines, h, i)
  {
    hide IsHeader;
    assert Continues(lines[i]) <==>
      (forall c <- lines[i] :: IsSpace(c)) || (lines[i] != "" && (lines[i][0] == ' ' || lines[i][0] == '\t'));
    if i > 0 {
      InStanzaExactlyWhen(lines, interface, i - 1);
      if h: nat :| h <= i - 1 && IsHeader(lines[h], interface) && Below(lines, h, i - 1) && Continues(lines[i]) {
        assert Below(lines, h, i);
      }
      if h: nat :| h <= i && IsHeader(lines[h], interface) && Below(lines, h, i) && h < i {
        assert Below(lines, h, i - 1);
      }
    }
    if IsHeader(lines[i], interface) { assert Below(lines, i, i); }
  }

  // --------------------------------------------------------------------- the include

  lemma TwoWords(before: string, a: string, b: string, w: string, after: string)
    requires IsBlank(before) && IsWord(a) && Spaces(b) && IsWord(w) && IsBlank(after)
    ensures Words(before + (a + (b + (w + after)))) == [a, w]
  {
    hide Words, IsWord;
    BlankBefore(before, a + (b + (w + after)));
    Behind(a, b, w + after);
    if after != "" { assert after[0] in after; }
    WordsCons(w, after);
    WordsOfBlank(after);
  }

  lemma TwoPieces(line: string, a: string, w: string) returns (before: string, b: string, after: string)
    requires Words(line) == [a, w]
    ensures line == before + (a + (b + (w + after))) && IsBlank(before) && Spaces(b) && IsBlank(after)
  {
    hide Words;
    var rest: string;
    before, rest := Peel(line);
    b, after := Peel(rest);
    FirstIsSpace(rest, w);
    SpaceFirst(rest, b, w, after);
    NoWordsIsBlank(after);
    assert rest == b + (w + after);
  }

  predicate IncludePieces(line: string, before: string, b: string, after: string) {
    && IsBlank(before) && Spaces(b) && IsBlank(after)
    && (|| line == before + ("source" + (b + ("/etc/network/interfaces.d/*" + after)))
        || line == before + ("source-directory" + (b + ("/etc/network/interfaces.d" + after))))
  }

  /** An include is `source` with the pattern of the directory, or `source-directory` with the directory. */
  lemma IncludeExactlyWhen(line: string)
    ensures IsInclude(line) <==> exists before, b, after :: IncludePieces(line, before, b, after)
  {
    hide Words, IsWord;
    IncludeWords();
    if IsInclude(line) {
      if Words(line) == ["source", INCLUDE_PATTERN] {
        var before, b, after := TwoPieces(line, "source", INCLUDE_PATTERN);
        assert IncludePieces(line, before, b, after);
      } else {
        var before, b, after := TwoPieces(line, "source-directory", CONFIG_DIR);
        assert IncludePieces(line, before, b, after);
      }
    }
    if before, b, after :| IncludePieces(line, before, b, after) {
      TwoWords(before, "source", b, INCLUDE_PATTERN, after);
      TwoWords(before, "source-directory", b, CONFIG_DIR, after);
    }
  }

  lemma IncludeWords()
    ensures IsWord("source") && IsWord("source-directory") && IsWord(INCLUDE_PATTERN) && IsWord(CONFIG_DIR)
  {
    hide IsWord;
    DirectoryWord();
    PatternWord();
    ConfigWord();
  }

  lemma PatternWord()
    ensures IsWord(INCLUDE_PATTERN)
  {
  }

  lemma ConfigWord()
    ensures IsWord(CONFIG_DIR)
  {
  }

  lemma DirectoryWord()
    ensures IsWord("source") && IsWord("source-directory")
  {
    var a, b := "source", "-directory";
    assert a + b == "source-directory" && IsWord(a) && IsWord(b);
    assert forall c <- a + b :: c in a || c in b;
  }
}
