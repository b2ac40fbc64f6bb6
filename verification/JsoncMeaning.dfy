/** Normalising a JSONC document keeps the JSON value it stands for. */
module JsoncMeaning {
  import opened Wrappers
  import opened PyText
  import opened Jsonc
  import opened JsonText

  // ------------------------------------------------- the comment scanner, piecewise

  ghost predicate StripsAt(t: string, u: string, rest: string) {
    Strip(t + rest, Outside) == u + Strip(rest, Outside)
  }

  /** In front of anything, the scanner turns `t` into `u`. */
  ghost predicate Strips(t: string, u: string) {
    forall rest: string :: StripsAt(t, u, rest)
  }

  lemma StripsBoth(t1: string, u1: string, t2: string, u2: string)
    requires Strips(t1, u1) && Strips(t2, u2)
    ensures Strips(t1 + t2, u1 + u2)
  {
    hide Strip;
    forall rest: string
      ensures StripsAt(t1 + t2, u1 + u2, rest)
    {
      assert StripsAt(t1, u1, t2 + rest) && StripsAt(t2, u2, rest);
      assert (t1 + t2) + rest == t1 + (t2 + rest);
      assert (u1 + u2) + Strip(rest, Outside) == u1 + (u2 + Strip(rest, Outside));
    }
  }

  lemma StripsNothing()
    ensures Strips("", "")
  {
    forall rest: string ensures StripsAt("", "", rest) { assert "" + rest == rest; }
  }

  lemma StripsChar(c: char)
    requires c != '/' && c != '"'
    ensures Strips([c], [c])
  {
    forall rest: string
      ensures StripsAt([c], [c], rest)
    {
      assert ([c] + rest)[1..] == rest;
    }
  }

  lemma {:induction false} StripsPlain(t: string)
    requires forall c <- t :: c != '/' && c != '"'
    ensures Strips(t, t)
  {
    if t == "" {
      StripsNothing();
    } else {
      assert t[0] in t;
      StripsChar(t[0]);
      assert forall c <- t[1..] :: c in t;
      StripsPlain(t[1..]);
      StripsBoth([t[0]], [t[0]], t[1..], t[1..]);
      assert [t[0]] + t[1..] == t;
    }
  }

  /** All a scanner sees of a string body: escapes come in pairs and no quote is bare. */
  predicate IsBody(s: string) {
    s == "" || (if s[0] == '\\' then |s| >= 2 && IsBody(s[2..]) else s[0] != '"' && IsBody(s[1..]))
  }

  lemma {:induction false} RawIsBody(raw: string)
    requires IsRaw(raw)
    ensures IsBody(raw)
    decreases |raw|
  {
    if raw != "" {
      RawIsBody(if raw[0] == '\\' then raw[2..] else raw[1..]);
    }
  }

  lemma {:induction false} StripKeepsBody(s: string, rest: string)
    requires IsBody(s)
    ensures Strip(s + rest, InString) == s + Strip(rest, InString)
    decreases |s|
  {
    var t := s + rest;
    if s == "" {
      assert t == rest;
    } else if s[0] == '\\' {
      StripKeepsBody(s[2..], rest);
      assert t[0] == s[0] && t[1..][0] == s[1] && t[1..][1..] == s[2..] + rest;
      assert Strip(t[1..], Escaped) == [s[1]] + Strip(s[2..] + rest, InString);
      assert s + Strip(rest, InString) == [s[0]] + ([s[1]] + (s[2..] + Strip(rest, InString)));
    } else {
      StripKeepsBody(s[1..], rest);
      assert t[0] == s[0] && t[1..] == s[1..] + rest;
      assert s + Strip(rest, InString) == [s[0]] + (s[1..] + Strip(rest, InString));
    }
  }

  lemma {:induction false} TrimKeepsBody(s: string, rest: string)
    requires IsBody(s)
    ensures Trim(s + rest, InString) == s + Trim(rest, InString)
    decreases |s|
  {
    var t := s + rest;
    if s == "" {
      assert t == rest;
    } else if s[0] == '\\' {
      TrimKeepsBody(s[2..], rest);
      assert t[0] == s[0] && t[1..][0] == s[1] && t[1..][1..] == s[2..] + rest;
      assert Trim(t[1..], Escaped) == [s[1]] + Trim(s[2..] + rest, InString);
      assert s + Trim(rest, InString) == [s[0]] + ([s[1]] + (s[2..] + Trim(rest, InString)));
    } else {
      TrimKeepsBody(s[1..], rest);
      assert t[0] == s[0] && t[1..] == s[1..] + rest;
      assert s + Trim(rest, InString) == [s[0]] + (s[1..] + Trim(rest, InString));
    }
  }

  lemma QuoteParts(raw: string, rest: string)
    ensures Quote(raw) + rest == ['"'] + (raw + (['"'] + rest))
    ensures (Quote(raw) + rest)[1..] == raw + (['"'] + rest)
    ensures (['"'] + rest)[1..] == rest
  {
  }

  lemma StripsQuoted(raw: string)
    requires IsRaw(raw)
    ensures Strips(Quote(raw), Quote(raw))
  {
    RawIsBody(raw);
    forall rest: string
      ensures StripsAt(Quote(raw), Quote(raw), rest)
    {
      QuoteParts(raw, rest);
      QuoteParts(raw, Strip(rest, Outside));
      StripKeepsBody(raw, ['"'] + rest);
    }
  }

  lemma {:induction false} LineEnds(text: string, rest: string)
    requires forall c <- text :: !IsNewline(c)
    requires rest == "" || IsNewline(rest[0])
    ensures AfterLine(text + rest) == rest
  {
    if text == "" {
      assert text + rest == rest;
    } else {
      assert text[0] in text && (text + rest)[0] == text[0] && (text + rest)[1..] == text[1..] + rest;
      LineEnds(text[1..], rest);
    }
  }

  lemma {:induction false} BlockEnds(body: string, rest: string)
    requires Block(body).Valid()
    ensures AfterBlock(body + "*/" + rest) == rest
    ensures BlockNewlines(body + "*/" + rest) == Breaks(body)
  {
    var s := body + "*/" + rest;
    if body == "" {
      assert s[..2] == "*/" && s[2..] == rest;
    } else {
      assert s[0] == body[0] && s[1..] == body[1..] + "*/" + rest;
      assert s[..2] != "*/" by { assert s[1] == if |body| > 1 then body[1] else '*'; }
      BlockEnds(body[1..], rest);
    }
  }

  lemma {:induction false} BreaksAreSpace(s: string)
    ensures forall c <- Breaks(s) :: IsJsonSpace(c)
  {
    if s != "" { BreaksAreSpace(s[1..]); }
  }

  lemma StripsBlock(body: string)
    requires Block(body).Valid()
    ensures Strips(Block(body).Print(Style.Jsonc), Block(body).Print(Bare))
    ensures forall c <- Block(body).Print(Bare) :: IsJsonSpace(c)
  {
    hide BlockNewlines, AfterBlock, Breaks;
    BreaksAreSpace(body);
    var p := Block(body);
    forall rest: string
      ensures StripsAt(p.Print(Style.Jsonc), p.Print(Bare), rest)
    {
      var s := p.Print(Style.Jsonc) + rest;
      assert s[2..] == body + "*/" + rest;
      BlockEnds(body, rest);
    }
  }

  lemma StripsPiece(p: Piece)
    requires p.Valid()
    ensures Strips(p.Print(Style.Jsonc), p.Print(Bare))
    ensures forall c <- p.Print(Bare) :: IsJsonSpace(c)
    ensures p.Print(Clean) == p.Print(Bare)
  {
    match p
    case Space(c) => StripsChar(c);
    case Line(text, newline) =>
      forall rest: string
        ensures StripsAt(p.Print(Style.Jsonc), [newline], rest)
      {
        var s := p.Print(Style.Jsonc) + rest;
        assert s[2..] == text + ([newline] + rest);
        LineEnds(text, [newline] + rest);
        assert ([newline] + rest)[1..] == rest;
      }
    case Block(body) => StripsBlock(body);
  }

  lemma {:induction false} StripsTrivia(t: Trivia)
    requires ValidTrivia(t)
    ensures Strips(PrintTrivia(t, Style.Jsonc), PrintTrivia(t, Bare))
    ensures forall c <- PrintTrivia(t, Bare) :: IsJsonSpace(c)
    ensures PrintTrivia(t, Clean) == PrintTrivia(t, Bare)
  {
    if t == [] {
      StripsNothing();
    } else {
      StripsPiece(t[0]);
      StripsTrivia(t[1..]);
      StripsBoth(t[0].Print(Style.Jsonc), t[0].Print(Bare), PrintTrivia(t[1..], Style.Jsonc),
                 PrintTrivia(t[1..], Bare));
    }
  }

  lemma {:induction false} StripsNode(n: Node)
    requires ValidNode(n)
    ensures Strips(PrintNode(n, Style.Jsonc), PrintNode(n, Bare))
    decreases n, 0
  {
    match n
    case Scalar(lexeme) => StripsPlain(lexeme);
    case Quoted(raw) => StripsQuoted(raw);
    case Container(kind, items, comma, tail) =>
      var sep := if comma then "," else "";
      var close := [kind.Close()];
      StripsItems(items, kind);
      StripsPlain(sep);
      StripsTrivia(tail);
      StripsChar(kind.Open());
      StripsChar(kind.Close());
      StripsBoth(PrintTrivia(tail, Style.Jsonc), PrintTrivia(tail, Bare), close, close);
      StripsBoth(sep, sep, PrintTrivia(tail, Style.Jsonc) + close, PrintTrivia(tail, Bare) + close);
      StripsBoth(PrintItems(items, Style.Jsonc), PrintItems(items, Bare),
                 sep + (PrintTrivia(tail, Style.Jsonc) + close), sep + (PrintTrivia(tail, Bare) + close));
      StripsBoth([kind.Open()], [kind.Open()],
                 PrintItems(items, Style.Jsonc) + (sep + (PrintTrivia(tail, Style.Jsonc) + close)),
                 PrintItems(items, Bare) + (sep + (PrintTrivia(tail, Bare) + close)));
  }

  lemma StripsKey(key: Option<Key>)
    requires key.Some? ==>
             IsRaw(key.value.raw) && ValidTrivia(key.value.beforeColon) && ValidTrivia(key.value.afterColon)
    ensures Strips(PrintKey(key, Style.Jsonc), PrintKey(key, Bare))
  {
    if key.None? {
      StripsNothing();
    } else {
      var Key(raw, before, after) := key.value;
      StripsQuoted(raw);
      StripsTrivia(before);
      StripsTrivia(after);
      StripsChar(':');
      StripsBoth([':'], [':'], PrintTrivia(after, Style.Jsonc), PrintTrivia(after, Bare));
      StripsBoth(PrintTrivia(before, Style.Jsonc), PrintTrivia(before, Bare),
                 [':'] + PrintTrivia(after, Style.Jsonc), [':'] + PrintTrivia(after, Bare));
      StripsBoth(Quote(raw), Quote(raw),
                 PrintTrivia(before, Style.Jsonc) + ([':'] + PrintTrivia(after, Style.Jsonc)),
                 PrintTrivia(before, Bare) + ([':'] + PrintTrivia(after, Bare)));
    }
  }

  lemma {:induction false} StripsItems(items: Items, kind: Kind)
    requires ValidItems(items, kind)
    ensures Strips(PrintItems(items, Style.Jsonc), PrintItems(items, Bare))
    decreases items, 1
  {
    match items
    case Nil => StripsNothing();
    case Cons(item, rest) =>
      var Item(before, key, value, after) := item;
      StripsTrivia(before);
      StripsKey(key);
      StripsNode(value);
      StripsTrivia(after);
      StripsBoth(PrintNode(value, Style.Jsonc), PrintNode(value, Bare), PrintTrivia(after, Style.Jsonc),
                 PrintTrivia(after, Bare));
      StripsBoth(PrintKey(key, Style.Jsonc), PrintKey(key, Bare),
                 PrintNode(value, Style.Jsonc) + PrintTrivia(after, Style.Jsonc),
                   PrintNode(value, Bare) + PrintTrivia(after, Bare));
      StripsBoth(PrintTrivia(before, Style.Jsonc), PrintTrivia(before, Bare),
                 PrintKey(key, Style.Jsonc) + (PrintNode(value, Style.Jsonc) + PrintTrivia(after, Style.Jsonc)),
                 PrintKey(key, Bare) + (PrintNode(value, Bare) + PrintTrivia(after, Bare)));
      if rest.Nil? {
        StripsNothing();
        StripsBoth(PrintItem(item, Style.Jsonc), PrintItem(item, Bare), "", "");
      } else {
        StripsItems(rest, kind);
        StripsChar(',');
        StripsBoth([','], [','], PrintItems(rest, Style.Jsonc), PrintItems(rest, Bare));
        StripsBoth(PrintItem(item, Style.Jsonc), PrintItem(item, Bare),
                   [','] + PrintItems(rest, Style.Jsonc), [','] + PrintItems(rest, Bare));
      }
  }

  // ---------------------------------------------- the trailing-comma scanner, piecewise

  ghost predicate TrimsAt(t: string, u: string, rest: string) {
    Trim(t + rest, Outside) == u + Trim(rest, Outside)
  }

  ghost predicate Trims(t: string, u: string) {
    forall rest: string :: TrimsAt(t, u, rest)
  }

  lemma TrimsBoth(t1: string, u1: string, t2: string, u2: string)
    requires Trims(t1, u1) && Trims(t2, u2)
    ensures Trims(t1 + t2, u1 + u2)
  {
    forall rest: string
      ensures TrimsAt(t1 + t2, u1 + u2, rest)
    {
      assert TrimsAt(t1, u1, t2 + rest) && TrimsAt(t2, u2, rest);
      assert (t1 + t2) + rest == t1 + (t2 + rest);
      assert (u1 + u2) + Trim(rest, Outside) == u1 + (u2 + Trim(rest, Outside));
    }
  }

  lemma TrimsNothing()
    ensures Trims("", "")
  {
    forall rest: string ensures TrimsAt("", "", rest) { assert "" + rest == rest; }
  }

  lemma TrimsChar(c: char)
    requires c != ',' && c != '"'
    ensures Trims([c], [c])
  {
    forall rest: string
      ensures TrimsAt([c], [c], rest)
    {
      assert ([c] + rest)[1..] == rest;
    }
  }

  lemma {:induction false} TrimsPlain(t: string)
    requires forall c <- t :: c != ',' && c != '"'
    ensures Trims(t, t)
  {
    if t == "" {
      TrimsNothing();
    } else {
      assert t[0] in t;
      TrimsChar(t[0]);
      assert forall c <- t[1..] :: c in t;
      TrimsPlain(t[1..]);
      TrimsBoth([t[0]], [t[0]], t[1..], t[1..]);
      assert [t[0]] + t[1..] == t;
    }
  }

  lemma TrimsQuoted(raw: string)
    requires IsRaw(raw)
    ensures Trims(Quote(raw), Quote(raw))
  {
    RawIsBody(raw);
    forall rest: string
      ensures TrimsAt(Quote(raw), Quote(raw), rest)
    {
      QuoteParts(raw, rest);
      QuoteParts(raw, Trim(rest, Outside));
      TrimKeepsBody(raw, ['"'] + rest);
    }
  }

  /** The first character that is not white space exists and closes nothing. */
  predicate Significant(t: string) {
    t != "" && (if IsSpace(t[0]) then Significant(t[1..]) else !IsCloser(t[0]))
  }

  lemma {:induction false} SignificantStays(t: string, rest: string)
    requires Significant(t)
    ensures !ClosesNext(t + rest) && Significant(t + rest)
  {
    assert (t + rest)[0] == t[0] && (t + rest)[1..] == t[1..] + rest;
    if IsSpace(t[0]) {
      SignificantStays(t[1..], rest);
    }
  }

  lemma {:induction false} SpaceBefore(w: string, t: string)
    requires forall c <- w :: IsJsonSpace(c)
    ensures Significant(w + t) == Significant(t) && ClosesNext(w + t) == ClosesNext(t) && Skip(w + t) == Skip(t)
  {
    if w == "" {
      assert w + t == t;
    } else {
      assert w[0] in w && (w + t)[0] == w[0] && (w + t)[1..] == w[1..] + t;
      SpaceBefore(w[1..], t);
    }
  }

  /** A comma stays in front of anything significant. */
  lemma TrimsSeparator(t: string, u: string)
    requires Trims(t, u) && Significant(t)
    ensures Trims([','] + t, [','] + u)
  {
    forall rest: string
      ensures TrimsAt([','] + t, [','] + u, rest)
    {
      SignificantStays(t, rest);
      assert TrimsAt(t, u, rest);
      assert ([','] + t + rest)[1..] == t + rest;
      assert ([','] + u) + Trim(rest, Outside) == [','] + (u + Trim(rest, Outside));
    }
  }

  /** A comma goes in front of white space and a closing bracket. */
  lemma TrimsTrailingComma(w: string, close: char)
    requires IsCloser(close) && forall c <- w :: IsJsonSpace(c)
    ensures Trims("," + (w + [close]), w + [close])
  {
    TrimsPlain(w + [close]);
    forall rest: string
      ensures TrimsAt("," + (w + [close]), w + [close], rest)
    {
      SpaceBefore(w, [close] + rest);
      assert w + ([close] + rest) == (w + [close]) + rest;
      assert TrimsAt(w + [close], w + [close], rest);
      assert ("," + (w + [close]) + rest)[1..] == (w + [close]) + rest;
    }
  }

  lemma NodeIsSignificant(n: Node, style: Style)
    requires ValidNode(n)
    ensures PrintNode(n, style) != "" && !IsSpace(PrintNode(n, style)[0]) && Significant(PrintNode(n, style))
  {
    if n.Scalar? {
      assert n.lexeme[0] in n.lexeme;
    }
  }

  lemma ItemIsSignificant(item: Item, rest: Items, kind: Kind)
    requires ValidItems(Cons(item, rest), kind)
    ensures Significant(PrintItem(item, Bare))
  {
    var Item(before, key, value, after) := item;
    StripsTrivia(before);
    var node := PrintNode(value, Bare) + PrintTrivia(after, Bare);
    NodeIsSignificant(value, Bare);
    SignificantStays(PrintNode(value, Bare), PrintTrivia(after, Bare));
    assert key.None? ==> PrintKey(key, Bare) + node == node;
    SpaceBefore(PrintTrivia(before, Bare), PrintKey(key, Bare) + node);
  }

  lemma {:induction false} TrimsNode(n: Node)
    requires ValidNode(n)
    ensures Trims(PrintNode(n, Bare), PrintNode(n, Clean))
    decreases n, 0
  {
    match n
    case Scalar(lexeme) => TrimsPlain(lexeme);
    case Quoted(raw) => TrimsQuoted(raw);
    case Container(kind, items, comma, tail) =>
      var w, close := PrintTrivia(tail, Bare), [kind.Close()];
      TrimsItems(items, kind);
      StripsTrivia(tail);
      if comma {
        TrimsTrailingComma(w, kind.Close());
      } else {
        TrimsPlain(w + close);
      }
      var sep := if comma then "," else "";
      assert "" + (w + close) == w + close;
      TrimsChar(kind.Open());
      TrimsBoth(PrintItems(items, Bare), PrintItems(items, Clean), sep + (w + close), w + close);
      TrimsBoth([kind.Open()], [kind.Open()], PrintItems(items, Bare) + (sep + (w + close)),
                PrintItems(items, Clean) + (w + close));
  }

  lemma TrimsKey(key: Option<Key>)
    requires key.Some? ==>
             IsRaw(key.value.raw) && ValidTrivia(key.value.beforeColon) && ValidTrivia(key.value.afterColon)
    ensures Trims(PrintKey(key, Bare), PrintKey(key, Clean))
  {
    if key.None? {
      TrimsNothing();
    } else {
      var Key(raw, before, after) := key.value;
      TrimsQuoted(raw);
      StripsTrivia(before);
      StripsTrivia(after);
      var colon := PrintTrivia(before, Bare) + ([':'] + PrintTrivia(after, Bare));
      TrimsPlain(colon);
      TrimsBoth(Quote(raw), Quote(raw), colon, colon);
    }
  }

  lemma {:induction false} TrimsItems(items: Items, kind: Kind)
    requires ValidItems(items, kind)
    ensures Trims(PrintItems(items, Bare), PrintItems(items, Clean))
    ensures items.Cons? ==> Significant(PrintItems(items, Bare))
    decreases items, 1
  {
    match items
    case Nil => TrimsNothing();
    case Cons(item, rest) =>
      var Item(before, key, value, after) := item;
      StripsTrivia(before);
      StripsTrivia(after);
      var w, z := PrintTrivia(before, Bare), PrintTrivia(after, Bare);
      TrimsPlain(w);
      TrimsPlain(z);
      TrimsKey(key);
      TrimsNode(value);
      TrimsBoth(PrintNode(value, Bare), PrintNode(value, Clean), z, z);
      TrimsBoth(PrintKey(key, Bare), PrintKey(key, Clean), PrintNode(value, Bare) + z, PrintNode(value, Clean) + z);
      TrimsBoth(w, w, PrintKey(key, Bare) + (PrintNode(value, Bare) + z),
                PrintKey(key, Clean) + (PrintNode(value, Clean) + z));
      ItemIsSignificant(item, rest, kind);
      if rest.Nil? {
        TrimsNothing();
        TrimsBoth(PrintItem(item, Bare), PrintItem(item, Clean), "", "");
        SignificantStays(PrintItem(item, Bare), "");
      } else {
        TrimsItems(rest, kind);
        TrimsSeparator(PrintItems(rest, Bare), PrintItems(rest, Clean));
        TrimsBoth(PrintItem(item, Bare), PrintItem(item, Clean), [','] + PrintItems(rest, Bare),
                  [','] + PrintItems(rest, Clean));
        SignificantStays(PrintItem(item, Bare), [','] + PrintItems(rest, Bare));
      }
  }

  /** A last comment without a line break vanishes. */
  lemma StripsLastComment(text: string)
    requires forall c <- text :: !IsNewline(c)
    ensures Strip("//" + text, Outside) == ""
  {
    LineEnds(text, "");
    assert ("//" + text)[2..] == text && text + "" == text;
  }

  lemma DocumentParts(a: string, n: string, z: string, last: string)
    ensures a + (n + (z + last)) == (a + (n + z)) + last
    ensures last == "" ==> a + (n + (z + last)) == a + (n + z)
  {
    assert (a + (n + z)) + last == a + ((n + z) + last);
    assert (n + z) + last == n + (z + last);
  }

  lemma StripsDocument(d: Document)
    requires ValidDocument(d)
    ensures Strip(PrintDocument(d, Style.Jsonc), Outside) == PrintDocument(d, Bare)
  {
    StripsTrivia(d.before);
    StripsNode(d.root);
    StripsTrivia(d.after);
    var a, n, z := PrintTrivia(d.before, Style.Jsonc), PrintNode(d.root, Style.Jsonc),
      PrintTrivia(d.after, Style.Jsonc);
    var b, m, y := PrintTrivia(d.before, Bare), PrintNode(d.root, Bare), PrintTrivia(d.after, Bare);
    var last := if d.lastComment.Some? then "//" + d.lastComment.value else "";
    if d.lastComment.Some? {
      StripsLastComment(d.lastComment.value);
    }
    StripsBoth(n, m, z, y);
    StripsBoth(a, b, n + z, m + y);
    assert StripsAt(a + (n + z), b + (m + y), last);
    DocumentParts(a, n, z, last);
    DocumentParts(b, m, y, "");
  }

  lemma TrimsDocument(d: Document)
    requires ValidDocument(d)
    ensures Trim(PrintDocument(d, Bare), Outside) == PrintDocument(d, Clean)
  {
    StripsTrivia(d.before);
    StripsTrivia(d.after);
    var w, z := PrintTrivia(d.before, Bare), PrintTrivia(d.after, Bare);
    var m, n := PrintNode(d.root, Bare), PrintNode(d.root, Clean);
    TrimsPlain(w);
    TrimsNode(d.root);
    TrimsPlain(z);
    TrimsBoth(m, n, z, z);
    TrimsBoth(w, w, m + z, n + z);
    assert TrimsAt(w + (m + z), w + (n + z), "");
    DocumentParts(w, m, z, "");
    DocumentParts(w, n, z, "");
  }

  /** Both scanners together print the document without comments and trailing commas. */
  lemma NormalisedDocument(d: Document)
    requires ValidDocument(d)
    ensures Normalise(PrintDocument(d, Style.Jsonc)) == PrintDocument(d, Clean)
  {
    StripsDocument(d);
    TrimsDocument(d);
  }

  // ------------------------------------------------------------ parsing what is left

  predicate Stops(rest: string) { rest == "" || !IsLexemeChar(rest[0]) }

  lemma {:induction false} ParsesLexeme(lexeme: string, rest: string)
    requires Stops(rest) && forall c <- lexeme :: IsLexemeChar(c)
    ensures ParseLexeme(lexeme + rest) == (lexeme, rest)
  {
    var s := lexeme + rest;
    if lexeme == "" {
      assert s == rest;
    } else {
      assert lexeme[0] in lexeme && s[0] == lexeme[0] && s[1..] == lexeme[1..] + rest;
      assert forall c <- lexeme[1..] :: c in lexeme;
      ParsesLexeme(lexeme[1..], rest);
      assert [lexeme[0]] + lexeme[1..] == lexeme;
    }
  }

  lemma {:induction false} ParsesBody(raw: string, rest: string)
    requires IsBody(raw)
    ensures ParseRaw(raw + (['"'] + rest)) == Some((raw, rest))
    decreases |raw|
  {
    var s := raw + (['"'] + rest);
    if raw == "" {
      assert s[0] == '"' && s[1..] == rest;
    } else if raw[0] == '\\' {
      assert s[0] == raw[0] && s[..2] == raw[..2] && s[2..] == raw[2..] + (['"'] + rest);
      ParsesBody(raw[2..], rest);
      assert raw[..2] + raw[2..] == raw;
    } else {
      assert s[0] == raw[0] && s[1..] == raw[1..] + (['"'] + rest);
      ParsesBody(raw[1..], rest);
      assert [raw[0]] + raw[1..] == raw;
    }
  }

  lemma ParsesQuoted(raw: string, rest: string)
    requires IsRaw(raw)
    ensures ParseText(Quote(raw) + rest) == Some((raw, rest))
  {
    RawIsBody(raw);
    QuoteParts(raw, rest);
    ParsesBody(raw, rest);
  }

  lemma SkipsTo(w: string, t: string)
    requires forall c <- w :: IsJsonSpace(c)
    requires t != "" && !IsJsonSpace(t[0])
    ensures Skip(w + t) == t
  {
    SpaceBefore(w, t);
  }

  lemma CleanTrivia(t: Trivia)
    requires ValidTrivia(t)
    ensures forall c <- PrintTrivia(t, Clean) :: IsJsonSpace(c) && !IsLexemeChar(c)
  {
    StripsTrivia(t);
  }

  // One lemma per way a parser function succeeds, over arbitrary texts.

  lemma EntryWithoutKey(t: string, v: Value, rest: string)
    requires ParseValue(t) == Some((v, rest))
    ensures ParseEntry(t, Array) == Some((Entry(None, v), Skip(rest)))
  {
  }

  lemma EntryWithKey(t: string, key: string, afterKey: string, afterColon: string, v: Value, rest: string)
    requires ParseText(t) == Some((key, afterKey)) && Skip(afterKey) == [':'] + afterColon
    requires ParseValue(Skip(afterColon)) == Some((v, rest))
    ensures ParseEntry(t, Object) == Some((Entry(Some(key), v), Skip(rest)))
  {
    assert ([':'] + afterColon)[1..] == afterColon;
  }

  lemma LastEntry(t: string, kind: Kind, e: Entry, rest: string)
    requires ParseEntry(t, kind) == Some((e, [kind.Close()] + rest))
    ensures ParseEntries(t, kind) == Some(([e], rest))
  {
    assert ([kind.Close()] + rest)[1..] == rest;
  }

  lemma OneMoreEntry(t: string, kind: Kind, e: Entry, u: string, more: seq<Entry>, rest: string)
    requires ParseEntry(t, kind) == Some((e, [','] + u)) && ParseEntries(Skip(u), kind) == Some((more, rest))
    ensures ParseEntries(t, kind) == Some(([e] + more, rest))
  {
    assert ([','] + u)[1..] == u;
  }

  lemma EmptyGroup(s: string, kind: Kind, rest: string)
    requires s != "" && s[0] == kind.Open() && Skip(s[1..]) == [kind.Close()] + rest
    ensures ParseValue(s) == Some((Group(kind, []), rest))
  {
    assert ([kind.Close()] + rest)[1..] == rest;
  }

  lemma FilledGroup(s: string, kind: Kind, entries: seq<Entry>, rest: string)
    requires s != "" && s[0] == kind.Open() && Skip(s[1..]) != "" && Skip(s[1..])[0] != kind.Close()
    requires ParseEntries(Skip(s[1..]), kind) == Some((entries, rest))
    ensures ParseValue(s) == Some((Group(kind, entries), rest))
  {
  }

  lemma Regroup(o: char, a: string, b: string, c: char, rest: string, s: string)
    requires s == ([o] + (a + (b + [c]))) + rest
    ensures s != "" && s[0] == o && s[1..] == a + (b + ([c] + rest))
  {
  }

  /** What a container prints, behind its opening bracket. */
  lemma ContainerText(kind: Kind, items: Items, comma: bool, tail: Trivia, rest: string)
    ensures var s := PrintNode(Container(kind, items, comma, tail), Clean) + rest;
            s != "" && s[0] == kind.Open()
            && s[1..] == PrintItems(items, Clean) + (PrintTrivia(tail, Clean) + ([kind.Close()] + rest))
  {
    hide PrintItems, PrintTrivia, Kind.Open, Kind.Close;
    var a, b := PrintItems(items, Clean), PrintTrivia(tail, Clean);
    var text := PrintNode(Container(kind, items, comma, tail), Clean);
    assert "" + (b + [kind.Close()]) == b + [kind.Close()];
    Regroup(kind.Open(), a, b, kind.Close(), rest, text + rest);
  }

  /** The parts of a nonempty item list. */
  lemma ItemsParts(items: Items, kind: Kind)
    requires ValidItems(items, kind) && items.Cons?
    ensures ValidItems(Cons(items.item, items.rest), kind) && ValidItems(items.rest, kind)
    ensures items.rest.Nil? ==> PrintItems(items, Clean) == PrintItem(items.item, Clean)
    ensures items.rest.Cons? ==>
            PrintItems(items, Clean) == PrintItem(items.item, Clean) + ([','] + PrintItems(items.rest, Clean))
    ensures Meanings(items) == [MeaningOf(items.item)] + Meanings(items.rest)
    ensures Meanings(Nil) == []
  {
  }

  lemma ParsesScalar(lexeme: string, rest: string)
    requires ValidNode(Scalar(lexeme)) && Stops(rest)
    ensures ParseValue(PrintNode(Scalar(lexeme), Clean) + rest) == Some((Meaning(Scalar(lexeme)), rest))
  {
    assert lexeme[0] in lexeme && (lexeme + rest)[0] == lexeme[0];
    ParsesLexeme(lexeme, rest);
  }

  lemma ParsesText(raw: string, rest: string)
    requires IsRaw(raw)
    ensures ParseValue(PrintNode(Quoted(raw), Clean) + rest) == Some((Meaning(Quoted(raw)), rest))
  {
    ParsesQuoted(raw, rest);
  }

  lemma ParsesEmpty(kind: Kind, comma: bool, tail: Trivia, rest: string)
    requires ValidTrivia(tail)
    ensures ParseValue(PrintNode(Container(kind, Nil, comma, tail), Clean) + rest) == Some((Group(kind, []), rest))
  {
    var w, close := PrintTrivia(tail, Clean), [kind.Close()];
    var s := PrintNode(Container(kind, Nil, comma, tail), Clean) + rest;
    ContainerText(kind, Nil, comma, tail, rest);
    CleanTrivia(tail);
    SkipsTo(w, close + rest);
    assert PrintItems(Nil, Clean) + (w + (close + rest)) == w + (close + rest);
    EmptyGroup(s, kind, rest);
  }

  lemma NodeParts(n: Node)
    requires ValidNode(n)
    ensures n.Container? ==>
            ValidItems(n.items, n.kind) && ValidTrivia(n.tail) && Meaning(n) == Group(n.kind, Meanings(n.items))
    ensures n.Container? && n.items.Nil? ==> Meaning(n) == Group(n.kind, [])
    ensures n.Quoted? ==> IsRaw(n.raw)
  {
  }

  lemma {:induction false} ParsesNode(n: Node, rest: string)
    requires ValidNode(n) && Stops(rest)
    ensures ParseValue(PrintNode(n, Clean) + rest) == Some((Meaning(n), rest))
    decreases n, 0
  {
    hide *;
    NodeParts(n);
    match n {
      case Scalar(lexeme) => ParsesScalar(lexeme, rest);
      case Quoted(raw) => ParsesText(raw, rest);
      case Container(kind, items, comma, tail) =>
        if items.Nil? {
          ParsesEmpty(kind, comma, tail, rest);
        } else {
          ContainerText(kind, items, comma, tail, rest);
          CleanTrivia(tail);
          ParsesItems(items, kind, PrintTrivia(tail, Clean), rest);
          FilledGroup(PrintNode(n, Clean) + rest, kind, Meanings(items), rest);
        }
    }
  }

  lemma {:induction false} ParsesItems(items: Items, kind: Kind, w: string, rest: string)
    requires ValidItems(items, kind) && items.Cons?
    requires forall c <- w :: IsJsonSpace(c) && !IsLexemeChar(c)
    ensures var t := Skip(PrintItems(items, Clean) + (w + ([kind.Close()] + rest)));
            t != "" && t[0] != kind.Close() && ParseEntries(t, kind) == Some((Meanings(items), rest))
    decreases items, 1
  {
    hide *;
    ItemsParts(items, kind);
    var item, more := items.item, items.rest;
    var close := [kind.Close()] + rest;
    var t := Skip(PrintItems(items, Clean) + (w + close));
    if more.Nil? {
      ClosesGroup(w, kind, rest);
      ParsesItem(item, more, kind, w + close);
      LastEntry(t, kind, MeaningOf(item), rest);
      assert [MeaningOf(item)] + Meanings(more) == [MeaningOf(item)];
    } else {
      var u := PrintItems(more, Clean) + (w + close);
      AroundComma(PrintItem(item, Clean), PrintItems(more, Clean), w + close);
      StopsAtComma(u);
      ParsesItem(item, more, kind, [','] + u);
      ParsesItems(more, kind, w, rest);
      OneMoreEntry(t, kind, MeaningOf(item), u, Meanings(more), rest);
    }
  }

  lemma ClosesGroup(w: string, kind: Kind, rest: string)
    requires forall c <- w :: IsJsonSpace(c) && !IsLexemeChar(c)
    ensures var close := [kind.Close()] + rest; w + close != "" && Stops(w + close) && Skip(w + close) == close
  {
    SkipsTo(w, [kind.Close()] + rest);
    StopsBehind(w, [kind.Close()] + rest);
  }

  lemma StopsAtComma(u: string)
    ensures Stops([','] + u) && Skip([','] + u) == [','] + u
  {
  }

  lemma AroundComma(a: string, b: string, c: string)
    ensures (a + ([','] + b)) + c == a + ([','] + (b + c))
  {
  }

  function MeaningOf(item: Item): Entry {
    Entry(if item.key.Some? then Some(item.key.value.raw) else None, Meaning(item.value))
  }

  /** One printed item in front of `tail`, entered behind its leading white space. */
  lemma {:induction false} ParsesItem(item: Item, more: Items, kind: Kind, tail: string)
    requires ValidItems(Cons(item, more), kind) && tail != "" && Stops(tail)
    ensures var t := Skip(PrintItem(item, Clean) + tail);
            t != "" && t[0] != kind.Close() && ParseEntry(t, kind) == Some((MeaningOf(item), Skip(tail)))
    decreases item, 2
  {
    var Item(before, key, value, after) := item;
    var w, z, n := PrintTrivia(before, Clean), PrintTrivia(after, Clean), PrintNode(value, Clean);
    CleanTrivia(before);
    CleanTrivia(after);
    StopsBehind(z, tail);
    ParsesNode(value, z + tail);
    NodeIsSignificant(value, Clean);
    ItemParts(w, PrintKey(key, Clean), n, z, tail);
    if key.None? {
      ParsesElement(w, n, z, tail, Meaning(value));
    } else {
      ParsesMember(w, key.value, n, z, tail, Meaning(value));
    }
  }

  lemma ItemParts(w: string, k: string, n: string, z: string, tail: string)
    ensures (w + (k + (n + z))) + tail == w + (k + (n + (z + tail)))
  {
    assert (w + (k + (n + z))) + tail == w + ((k + (n + z)) + tail);
    assert (k + (n + z)) + tail == k + ((n + z) + tail);
    assert (n + z) + tail == n + (z + tail);
  }

  lemma ParsesElement(w: string, n: string, z: string, tail: string, v: Value)
    requires (forall c <- w :: IsJsonSpace(c)) && (forall c <- z :: IsJsonSpace(c))
    requires n != "" && !IsSpace(n[0]) && !IsCloser(n[0])
    requires ParseValue(n + (z + tail)) == Some((v, z + tail))
    ensures var t := Skip(w + ("" + (n + (z + tail))));
            t != "" && t[0] != ']' && ParseEntry(t, Array) == Some((Entry(None, v), Skip(tail)))
  {
    var node := n + (z + tail);
    assert "" + node == node;
    SkipsTo(w, node);
    SpaceBefore(z, tail);
    EntryWithoutKey(node, v, z + tail);
  }

  lemma ParsesMember(w: string, key: Key, n: string, z: string, tail: string, v: Value)
    requires IsRaw(key.raw) && ValidTrivia(key.beforeColon) && ValidTrivia(key.afterColon)
    requires (forall c <- w :: IsJsonSpace(c)) && (forall c <- z :: IsJsonSpace(c))
    requires n != "" && !IsSpace(n[0])
    requires ParseValue(n + (z + tail)) == Some((v, z + tail))
    ensures var t := Skip(w + (PrintKey(Some(key), Clean) + (n + (z + tail))));
            t != "" && t[0] != '}' && ParseEntry(t, Object) == Some((Entry(Some(key.raw), v), Skip(tail)))
  {
    var Key(raw, b, a) := key;
    var node, x, y := n + (z + tail), PrintTrivia(b, Clean), PrintTrivia(a, Clean);
    var colon := [':'] + (y + node);
    KeyParts(Quote(raw), x, y, node);
    SkipsTo(w, Quote(raw) + (x + colon));
    CleanTrivia(b);
    CleanTrivia(a);
    ParsesQuoted(raw, x + colon);
    SkipsTo(x, colon);
    SkipsTo(y, node);
    SpaceBefore(z, tail);
    EntryWithKey(Quote(raw) + (x + colon), raw, x + colon, y + node, v, z + tail);
  }

  lemma KeyParts(k: string, x: string, y: string, node: string)
    ensures (k + (x + ([':'] + y))) + node == k + (x + ([':'] + (y + node)))
  {
    assert (k + (x + ([':'] + y))) + node == k + ((x + ([':'] + y)) + node);
    assert (x + ([':'] + y)) + node == x + (([':'] + y) + node);
    assert ([':'] + y) + node == [':'] + (y + node);
  }

  lemma StopsBehind(w: string, rest: string)
    requires Stops(rest) && forall c <- w :: !IsLexemeChar(c)
    ensures Stops(w + rest)
  {
    assert if w == "" then w + rest == rest else w[0] in w && (w + rest)[0] == w[0];
  }

  lemma ParsesDocument(d: Document)
    requires ValidDocument(d)
    ensures ParseJson(PrintDocument(d, Clean)) == Some(Meaning(d.root))
  {
    CleanTrivia(d.before);
    CleanTrivia(d.after);
    var w, n, z := PrintTrivia(d.before, Clean), PrintNode(d.root, Clean), PrintTrivia(d.after, Clean);
    DocumentParts(w, n, z, "");
    NodeIsSignificant(d.root, Clean);
    SkipsTo(w, n + z);
    StopsBehind(z, "");
    assert z + "" == z;
    ParsesNode(d.root, z);
    SpaceBefore(z, "");
  }

  // ------------------------------------------------------ the normalised document

  function Spaces(w: string): Trivia {
    seq(|w|, i requires 0 <= i < |w| => Space(w[i]))
  }

  function Plain(n: Node): Node {
    match n
    case Container(kind, items, _, tail) => Container(kind, PlainItems(items), false, Spaces(PrintTrivia(tail, Clean)))
    case _ => n
  }

  function PlainKey(key: Option<Key>): Option<Key> {
    if key.None? then None
    else Some(Key(key.value.raw, Spaces(PrintTrivia(key.value.beforeColon, Clean)),
                  Spaces(PrintTrivia(key.value.afterColon, Clean))))
  }

  function PlainItems(items: Items): Items {
    match items
    case Nil => Nil
    case Cons(Item(before, key, value, after), rest) =>
      Cons(Item(Spaces(PrintTrivia(before, Clean)), PlainKey(key), Plain(value), Spaces(PrintTrivia(after, Clean))),
           PlainItems(rest))
  }

  lemma {:induction false} SpacesPrint(w: string, style: Style)
    ensures PrintTrivia(Spaces(w), style) == w
  {
    if w != "" {
      assert Spaces(w)[1..] == Spaces(w[1..]);
      SpacesPrint(w[1..], style);
    }
  }

  lemma PlainTrivia(t: Trivia, style: Style)
    requires ValidTrivia(t)
    ensures ValidTrivia(Spaces(PrintTrivia(t, Clean)))
            && PrintTrivia(Spaces(PrintTrivia(t, Clean)), style) == PrintTrivia(t, Clean)
  {
    CleanTrivia(t);
    SpacesPrint(PrintTrivia(t, Clean), style);
  }

  lemma {:induction false} PlainNode(n: Node, style: Style)
    requires ValidNode(n)
    ensures ValidNode(Plain(n)) && PrintNode(Plain(n), style) == PrintNode(n, Clean)
    decreases n, 0
  {
    if n.Container? {
      PlainTrivia(n.tail, style);
      PlainItemList(n.items, n.kind, style);
    }
  }

  lemma {:induction false} PlainItemList(items: Items, kind: Kind, style: Style)
    requires ValidItems(items, kind)
    ensures ValidItems(PlainItems(items), kind) && PrintItems(PlainItems(items), style) == PrintItems(items, Clean)
    decreases items, 1
  {
    match items
    case Nil =>
    case Cons(Item(before, key, value, after), rest) =>
      PlainTrivia(before, style);
      if key.Some? {
        PlainTrivia(key.value.beforeColon, style);
        PlainTrivia(key.value.afterColon, style);
      }
      PlainNode(value, style);
      PlainTrivia(after, style);
      PlainItemList(rest, kind, style);
  }

  function PlainOf(d: Document): Document {
    Document(Spaces(PrintTrivia(d.before, Clean)), Plain(d.root), Spaces(PrintTrivia(d.after, Clean)), None)
  }

  lemma PlainDocument(d: Document, style: Style)
    requires ValidDocument(d)
    ensures ValidDocument(PlainOf(d)) && PrintDocument(PlainOf(d), style) == PrintDocument(d, Clean)
  {
    PlainTrivia(d.before, style);
    PlainNode(d.root, style);
    PlainTrivia(d.after, style);
  }

  /** A normalised text is again a document, one without anything to remove. */
  lemma NormalisedIsStable(d: Document)
    requires ValidDocument(d)
    ensures var text := PrintDocument(d, Clean); CommentFree(text, Outside) && Normalise(text) == text
  {
    PlainDocument(d, Style.Jsonc);
    PlainDocument(d, Bare);
    PlainDocument(d, Clean);
    StripsDocument(PlainOf(d));
    TrimsDocument(PlainOf(d));
    StripFixesCommentFree(PrintDocument(d, Clean), Outside);
  }

  /**
   Normalising preserves meaning: whatever comments, white space and trailing
   commas a document is written with, the normalised text is comment-free, needs
   no second pass, and is a JSON text for the document's value, with every
   string body unchanged.
   */
  lemma NormalisePreservesMeaning(d: Document)
    requires ValidDocument(d)
    ensures var text := Normalise(PrintDocument(d, Style.Jsonc));
            && ParseJson(text) == Some(Meaning(d.root))
            && CommentFree(text, Outside)
            && Normalise(text) == text
  {
    NormalisedDocument(d);
    ParsesDocument(d);
    NormalisedIsStable(d);
  }
}
