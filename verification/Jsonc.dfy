/**
 The two scanners that turn JSONC into JSON: comment removal and trailing-comma
 removal. Both walk the text once and never look inside a string literal.
 */
module Jsonc {
  import opened PyText

  /** Where a scanner stands: outside a string, in one, or right after a backslash in one. */
  datatype Mode = Outside | InString | Escaped

  function Next(mode: Mode, c: char): Mode {
    match mode
    case Outside => if c == '"' then InString else Outside
    case InString => if c == '\\' then Escaped else if c == '"' then Outside else InString
    case Escaped => InString
  }

  predicate IsNewline(c: char) { c == '\r' || c == '\n' }

  predicate StartsComment(s: string) {
    |s| >= 2 && s[0] == '/' && (s[1] == '/' || s[1] == '*')
  }

  // ------------------------------------------------------------------ comments

  /** The text after a line comment: its line break stays. */
  function AfterLine(s: string): (r: string)
    ensures |r| <= |s|
  {
    if s == "" || IsNewline(s[0]) then s else AfterLine(s[1..])
  }

  /** The text after a block comment; an unterminated one swallows everything. */
  function AfterBlock(s: string): (r: string)
    ensures |r| <= |s|
  {
    if |s| < 2 then "" else if s[..2] == "*/" then s[2..] else AfterBlock(s[1..])
  }

  /** The line breaks a block comment leaves behind. */
  function BlockNewlines(s: string): string {
    if |s| < 2 || s[..2] == "*/" then ""
    else (if IsNewline(s[0]) then [s[0]] else "") + BlockNewlines(s[1..])
  }

  function Strip(s: string, mode: Mode): string
    decreases |s|
  {
    if s == "" then ""
    else if mode.Outside? && StartsComment(s) then
      if s[1] == '/' then Strip(AfterLine(s[2..]), Outside)
      else BlockNewlines(s[2..]) + Strip(AfterBlock(s[2..]), Outside)
    else [s[0]] + Strip(s[1..], Next(mode, s[0]))
  }

  /** One step of `Strip`, at an index and behind the text already emitted. */
  lemma StripAt(content: string, i: nat, mode: Mode, output: string)
    requires i < |content|
    ensures var s := content[i..];
            StartsComment(s) <==> i + 1 < |content| && content[i] == '/' && content[i + 1] in "/*"
    ensures var s := content[i..];
            if mode.Outside? && StartsComment(s) then
              if content[i + 1] == '/' then Strip(s, mode) == Strip(AfterLine(content[i + 2..]), Outside)
              else output + Strip(s, mode)
                   == (output + BlockNewlines(content[i + 2..])) + Strip(AfterBlock(content[i + 2..]), Outside)
            else output + Strip(s, mode) == (output + [content[i]]) + Strip(content[i + 1..], Next(mode, content[i]))
  {
    var s := content[i..];
    assert s[0] == content[i] && s[1..] == content[i + 1..];
    assert i + 1 < |content| ==> s[1] == content[i + 1] && s[2..] == content[i + 2..];
  }

  method StripComments(content: string) returns (output: string)
    ensures output == Strip(content, Outside)
  {
    output := "";
    var index, inString, escaped := 0, false, false;
    while index < |content|
      invariant index <= |content|
      invariant escaped ==> inString
      invariant output + Strip(content[index..], ModeOf(inString, escaped)) == Strip(content, Outside)
    {
      var c := content[index];
      StripAt(content, index, ModeOf(inString, escaped), output);
      if inString {
        output := output + [c];
        if escaped {
          escaped := false;
        } else if c == '\\' {
          escaped := true;
        } else if c == '"' {
          inString := false;
        }
        index := index + 1;
      } else if c == '"' {
        inString := true;
        output := output + [c];
        index := index + 1;
      } else if c == '/' && index + 1 < |content| && content[index + 1] == '/' {
        index := SkipLine(content, index + 2);
      } else if c == '/' && index + 1 < |content| && content[index + 1] == '*' {
        var newlines;
        newlines, index := SkipBlock(content, index + 2);
        output := output + newlines;
      } else {
        output := output + [c];
        index := index + 1;
      }
    }
    assert content[index..] == "";
  }

  function ModeOf(inString: bool, escaped: bool): Mode {
    if !inString then Outside else if escaped then Escaped else InString
  }

  method SkipLine(content: string, start: nat) returns (index: nat)
    requires start <= |content|
    ensures start <= index <= |content| && content[index..] == AfterLine(content[start..])
  {
    index := start;
    while index < |content| && !IsNewline(content[index])
      invariant start <= index <= |content|
      invariant AfterLine(content[index..]) == AfterLine(content[start..])
    {
      assert content[index..][1..] == content[index + 1..];
      index := index + 1;
    }
  }

  lemma BlockStep(content: string, index: nat)
    requires index + 1 < |content| && content[index..index + 2] != "*/"
    ensures AfterBlock(content[index..]) == AfterBlock(content[index + 1..])
    ensures BlockNewlines(content[index..])
         == (if IsNewline(content[index]) then [content[index]] else []) + BlockNewlines(content[index + 1..])
  {
    assert content[index..][1..] == content[index + 1..] && content[index..][..2] == content[index..index + 2];
  }

  lemma BlockEnd(content: string, index: nat)
    requires index <= |content| && (index + 1 < |content| ==> content[index..index + 2] == "*/")
    ensures AfterBlock(content[index..]) == content[if index + 2 <= |content| then index + 2 else |content|..]
    ensures BlockNewlines(content[index..]) == ""
  {
    assert index + 1 < |content| ==>
      content[index..][..2] == content[index..index + 2] && content[index..][2..] == content[index + 2..];
  }

  method SkipBlock(content: string, start: nat) returns (newlines: string, index: nat)
    requires start <= |content|
    ensures start <= index <= |content| && content[index..] == AfterBlock(content[start..])
    ensures newlines == BlockNewlines(content[start..])
  {
    hide AfterBlock, BlockNewlines;
    newlines, index := "", start;
    while index + 1 < |content| && content[index..index + 2] != "*/"
      invariant start <= index <= |content|
      invariant AfterBlock(content[index..]) == AfterBlock(content[start..])
      invariant newlines + BlockNewlines(content[index..]) == BlockNewlines(content[start..])
    {
      BlockStep(content, index);
      if IsNewline(content[index]) {
        newlines := newlines + [content[index]];
      }
      index := index + 1;
    }
    BlockEnd(content, index);
    index := if index + 2 <= |content| then index + 2 else |content|;
  }

  /** No comment opens outside a string. */
  predicate CommentFree(s: string, mode: Mode) {
    s == "" || (!(mode.Outside? && StartsComment(s)) && CommentFree(s[1..], Next(mode, s[0])))
  }

  lemma {:induction false} NewlinesAreCommentFree(s: string, t: string)
    requires forall c <- s :: IsNewline(c)
    ensures CommentFree(s + t, Outside) == CommentFree(t, Outside)
    ensures |s| > 0 ==> s + t != "" && IsNewline((s + t)[0])
  {
    if s == "" {
      assert s + t == t;
    } else {
      assert s[0] in s && (s + t)[0] == s[0] && (s + t)[1..] == s[1..] + t;
      NewlinesAreCommentFree(s[1..], t);
    }
  }

  lemma {:induction false} BlockLeavesNewlines(s: string)
    ensures forall c <- BlockNewlines(s) :: IsNewline(c)
  {
    if |s| >= 2 && s[..2] != "*/" {
      BlockLeavesNewlines(s[1..]);
    }
  }

  /** Stripping leaves no comment: an emitted `/` outside a string is never followed by `/` or `*`. */
  lemma {:induction false} StripIsCommentFree(s: string, mode: Mode)
    ensures CommentFree(Strip(s, mode), mode)
    decreases |s|
  {
    if s == "" {
    } else if mode.Outside? && StartsComment(s) {
      if s[1] == '/' {
        StripIsCommentFree(AfterLine(s[2..]), Outside);
      } else {
        StripIsCommentFree(AfterBlock(s[2..]), Outside);
        BlockLeavesNewlines(s[2..]);
        NewlinesAreCommentFree(BlockNewlines(s[2..]), Strip(AfterBlock(s[2..]), Outside));
      }
    } else {
      var tail := Strip(s[1..], Next(mode, s[0]));
      StripIsCommentFree(s[1..], Next(mode, s[0]));
      assert ([s[0]] + tail)[1..] == tail;
      if mode.Outside? && s[0] == '/' && |s| > 1 {
        assert !StartsComment(s[1..]) && tail[0] == s[1];
      }
    }
  }

  /** Stripping changes a text exactly when it holds a comment. */
  lemma {:induction false} StripFixesCommentFree(s: string, mode: Mode)
    ensures Strip(s, mode) == s <==> CommentFree(s, mode)
    ensures |Strip(s, mode)| <= |s|
    decreases |s|
  {
    if s == "" {
    } else if mode.Outside? && StartsComment(s) {
      if s[1] == '/' {
        StripFixesCommentFree(AfterLine(s[2..]), Outside);
      } else {
        StripFixesCommentFree(AfterBlock(s[2..]), Outside);
        BlockIsShorter(s[2..]);
      }
    } else {
      StripFixesCommentFree(s[1..], Next(mode, s[0]));
      var tail := Strip(s[1..], Next(mode, s[0]));
      assert s == [s[0]] + s[1..] && ([s[0]] + tail)[1..] == tail;
    }
  }

  lemma {:induction false} BlockIsShorter(s: string)
    ensures |BlockNewlines(s)| + |AfterBlock(s)| <= |s|
  {
    if |s| >= 2 && s[..2] != "*/" {
      BlockIsShorter(s[1..]);
    }
  }

  /** Comment stripping is idempotent on every text, well-formed or not. */
  lemma StripIsIdempotent(s: string)
    ensures Strip(Strip(s, Outside), Outside) == Strip(s, Outside)
  {
    StripIsCommentFree(s, Outside);
    StripFixesCommentFree(Strip(s, Outside), Outside);
  }

  // ----------------------------------------------------------- trailing commas

  predicate IsCloser(c: char) { c == '}' || c == ']' }

  /** The first character that is not white space closes a container. */
  predicate ClosesNext(s: string) {
    s != "" && (if IsSpace(s[0]) then ClosesNext(s[1..]) else IsCloser(s[0]))
  }

  predicate IsTrailingComma(s: string) {
    s != "" && s[0] == ',' && ClosesNext(s[1..])
  }

  function Trim(s: string, mode: Mode): string {
    if s == "" then ""
    else if mode.Outside? && IsTrailingComma(s) then Trim(s[1..], Outside)
    else [s[0]] + Trim(s[1..], Next(mode, s[0]))
  }

  /** One step of `Trim`, at an index and behind the text already emitted. */
  lemma TrimAt(content: string, i: nat, mode: Mode, output: string)
    requires i < |content|
    ensures var s := content[i..];
            if mode.Outside? && content[i] == ',' && ClosesNext(content[i + 1..]) then
              Trim(s, mode) == Trim(content[i + 1..], Outside)
            else output + Trim(s, mode) == (output + [content[i]]) + Trim(content[i + 1..], Next(mode, content[i]))
  {
    var s := content[i..];
    assert s[0] == content[i] && s[1..] == content[i + 1..];
  }

  /** The look-ahead loop behind a comma. */
  method CloserAhead(content: string, start: nat) returns (closes: bool)
    requires start <= |content|
    ensures closes == ClosesNext(content[start..])
  {
    var lookahead := start;
    while lookahead < |content| && IsSpace(content[lookahead])
      invariant start <= lookahead <= |content|
      invariant ClosesNext(content[lookahead..]) == ClosesNext(content[start..])
    {
      assert content[lookahead..][1..] == content[lookahead + 1..];
      lookahead := lookahead + 1;
    }
    closes := lookahead < |content| && IsCloser(content[lookahead]);
  }

  method StripTrailingCommas(content: string) returns (output: string)
    ensures output == Trim(content, Outside)
  {
    output := "";
    var index, inString, escaped := 0, false, false;
    while index < |content|
      invariant index <= |content|
      invariant escaped ==> inString
      invariant output + Trim(content[index..], ModeOf(inString, escaped)) == Trim(content, Outside)
    {
      var c := content[index];
      TrimAt(content, index, ModeOf(inString, escaped), output);
      if inString {
        output := output + [c];
        if escaped {
          escaped := false;
        } else if c == '\\' {
          escaped := true;
        } else if c == '"' {
          inString := false;
        }
        index := index + 1;
        continue;
      }
      if c == '"' {
        inString := true;
        output := output + [c];
        index := index + 1;
        continue;
      }
      if c == ',' {
        var closes := CloserAhead(content, index + 1);
        if closes {
          index := index + 1;
          continue;
        }
      }
      output := output + [c];
      index := index + 1;
    }
    assert content[index..] == "";
  }

  /** After white space comes a comma that is itself trailing. */
  predicate TrailingCommaNext(s: string) {
    s != "" && (if IsSpace(s[0]) then TrailingCommaNext(s[1..]) else IsTrailingComma(s))
  }

  /** Outside strings, some comma is followed, up to white space, by a trailing comma. */
  predicate DoubleTrailingComma(s: string, mode: Mode) {
    s != "" && ((mode.Outside? && s[0] == ',' && TrailingCommaNext(s[1..]))
                || DoubleTrailingComma(s[1..], Next(mode, s[0])))
  }

  /** Outside strings, no comma is trailing. */
  predicate NoTrailingComma(s: string, mode: Mode) {
    s == "" || (!(mode.Outside? && IsTrailingComma(s)) && NoTrailingComma(s[1..], Next(mode, s[0])))
  }

  lemma {:induction false} TrimFixesTrimmed(s: string, mode: Mode)
    ensures Trim(s, mode) == s <==> NoTrailingComma(s, mode)
    ensures |Trim(s, mode)| <= |s|
  {
    if s != "" {
      TrimFixesTrimmed(s[1..], Next(mode, s[0]));
      var tail := Trim(s[1..], Next(mode, s[0]));
      assert s == [s[0]] + s[1..] && ([s[0]] + tail)[1..] == tail;
    }
  }

  lemma {:induction false} CloserAfterTrim(s: string)
    ensures ClosesNext(Trim(s, Outside)) <==> ClosesNext(s) || TrailingCommaNext(s)
  {
    if s != "" {
      var tail := Trim(s[1..], Next(Outside, s[0]));
      assert ([s[0]] + tail)[1..] == tail;
      if IsSpace(s[0]) {
        CloserAfterTrim(s[1..]);
      } else if IsTrailingComma(s) {
        CloserAfterTrim(s[1..]);
      }
    }
  }

  lemma {:induction false} TrailingCommaAfterTrim(s: string, mode: Mode)
    ensures NoTrailingComma(Trim(s, mode), mode) <==> !DoubleTrailingComma(s, mode)
  {
    if s != "" {
      var tail := Trim(s[1..], Next(mode, s[0]));
      assert ([s[0]] + tail)[1..] == tail;
      TrailingCommaAfterTrim(s[1..], Next(mode, s[0]));
      if mode.Outside? && s[0] == ',' {
        CloserAfterTrim(s[1..]);
        if ClosesNext(s[1..]) {
          ClosingIsNoComma(s[1..]);
        }
      }
    }
  }

  lemma {:induction false} ClosingIsNoComma(s: string)
    requires ClosesNext(s)
    ensures !TrailingCommaNext(s)
  {
    if IsSpace(s[0]) {
      ClosingIsNoComma(s[1..]);
    }
  }

  /** Trailing-comma removal is idempotent exactly on texts without a doubled trailing comma. */
  lemma TrimIsIdempotentExactlyWhen(s: string)
    ensures Trim(Trim(s, Outside), Outside) == Trim(s, Outside) <==> !DoubleTrailingComma(s, Outside)
  {
    TrimFixesTrimmed(Trim(s, Outside), Outside);
    TrailingCommaAfterTrim(s, Outside);
  }

  /** So one pass is not always enough: `,,]` needs two. */
  lemma TrimIsNotIdempotent()
    ensures Trim(",,]", Outside) == ",]" != Trim(",]", Outside)
  {
    var s, t := ",,]", ",]";
    assert s[1..] == t && t[1..] == "]" && "]"[1..] == "";
    assert ClosesNext("]") && !ClosesNext(t);
    assert Trim("]", Outside) == [']'] + Trim("", Outside);
  }

  /** What `_load_opencode_config` hands to the JSON parser. */
  function Normalise(content: string): string {
    Trim(Strip(content, Outside), Outside)
  }
}
