/**
 JSON texts after RFC 8259: values, a recursive-descent parser, and the JSONC
 documents whose comments and trailing commas the scanners remove.
 */
module JsonText {
  import opened Wrappers
  import opened Jsonc

  // -------------------------------------------------------------------- values

  datatype Kind = Array | Object {
    function Open(): char { if Array? then '[' else '{' }
    function Close(): char { if Array? then ']' else '}' }
  }

  /** A literal or number by its lexeme, a string by its raw body, or a container. */
  datatype Value = Literal(lexeme: string) | Text(raw: string) | Group(kind: Kind, entries: seq<Entry>)

  /** An array element, or an object member with its raw key. */
  datatype Entry = Entry(key: Option<string>, value: Value)

  /** The white space of section 2. */
  predicate IsJsonSpace(c: char) { c in " \t\n\r" }

  predicate IsLexemeChar(c: char) {
    'a' <= c <= 'z' || 'A' <= c <= 'Z' || '0' <= c <= '9' || c in "+-."
  }

  predicate IsHex(c: char) { '0' <= c <= '9' || 'a' <= c <= 'f' || 'A' <= c <= 'F' }

  /** Section 7: characters of a string body, with complete escape sequences. */
  predicate IsRaw(s: string) {
    || s == ""
    || (if s[0] == '\\' then
          && |s| >= 2 && s[1] in "\"\\/bfnrtu"
          && (s[1] == 'u' ==> |s| >= 6 && IsHex(s[2]) && IsHex(s[3]) && IsHex(s[4]) && IsHex(s[5]))
          && IsRaw(s[2..])
        else s[0] != '"' && s[0] >= ' ' && IsRaw(s[1..]))
  }

  /** Where a reader of the number grammar of section 6 stands. */
  datatype NumberState = Start | Minus | Zero | Digits | Point | Fraction | Exponent | Sign | Power | Dead

  function NextNumberState(state: NumberState, c: char): NumberState {
    var digit := '0' <= c <= '9';
    match state
    case Start => if c == '-' then Minus else if c == '0' then Zero else if digit then Digits else Dead
    case Minus => if c == '0' then Zero else if digit then Digits else Dead
    case Zero => if c == '.' then Point else if c in "eE" then Exponent else Dead
    case Digits => if digit then Digits else if c == '.' then Point else if c in "eE" then Exponent else Dead
    case Point => if digit then Fraction else Dead
    case Fraction => if digit then Fraction else if c in "eE" then Exponent else Dead
    case Exponent => if digit then Power else if c in "+-" then Sign else Dead
    case Sign => if digit then Power else Dead
    case Power => if digit then Power else Dead
    case Dead => Dead
  }

  predicate IsNumber(s: string, state: NumberState) {
    if s == "" then state in {Zero, Digits, Fraction, Power} else IsNumber(s[1..], NextNumberState(state, s[0]))
  }

  /** Section 6, and the three literal names of section 3. */
  predicate IsLexeme(s: string) {
    s == "true" || s == "false" || s == "null" || IsNumber(s, Start)
  }

  // -------------------------------------------------------------------- parser

  function Skip(s: string): (r: string)
    ensures |r| <= |s|
  {
    if s != "" && IsJsonSpace(s[0]) then Skip(s[1..]) else s
  }

  /** The body of a string up to its closing quote, and what follows. */
  function ParseRaw(s: string): (r: Option<(string, string)>)
    ensures r.Some? ==> |r.value.1| < |s|
  {
    if s == "" then None
    else if s[0] == '"' then Some(("", s[1..]))
    else if s[0] == '\\' then
      if |s| < 2 then None
      else match ParseRaw(s[2..]) case None => None case Some((raw, rest)) => Some((s[..2] + raw, rest))
    else match ParseRaw(s[1..]) case None => None case Some((raw, rest)) => Some(([s[0]] + raw, rest))
  }

  /** The longest run of lexeme characters, and what follows. */
  function ParseLexeme(s: string): (r: (string, string))
    ensures |r.0| + |r.1| == |s|
  {
    if s == "" || !IsLexemeChar(s[0]) then ("", s)
    else var (lexeme, rest) := ParseLexeme(s[1..]); ([s[0]] + lexeme, rest)
  }

  function ParseText(s: string): (r: Option<(string, string)>)
    ensures r.Some? ==> |r.value.1| < |s|
  {
    if s == "" || s[0] != '"' then None
    else match ParseRaw(s[1..]) case None => None case Some((raw, rest)) =>
      if IsRaw(raw) then Some((raw, rest)) else None
  }

  function ParseValue(s: string): (r: Option<(Value, string)>)
    ensures r.Some? ==> |r.value.1| < |s|
    decreases |s|, 1
  {
    if s == "" then None
    else if s[0] == '"' then
      match ParseText(s) case None => None case Some((raw, rest)) => Some((Text(raw), rest))
    else if s[0] == '[' then ParseGroup(s, Array)
    else if s[0] == '{' then ParseGroup(s, Object)
    else
      var (lexeme, rest) := ParseLexeme(s);
      if IsLexeme(lexeme) && lexeme != "" then Some((Literal(lexeme), rest)) else None
  }

  function ParseGroup(s: string, kind: Kind): (r: Option<(Value, string)>)
    requires s != ""
    ensures r.Some? ==> |r.value.1| < |s|
    decreases |s|, 0
  {
    var t := Skip(s[1..]);
    if t == "" then None
    else if t[0] == kind.Close() then Some((Group(kind, []), t[1..]))
    else match ParseEntries(t, kind)
      case None => None
      case Some((entries, rest)) => Some((Group(kind, entries), rest))
  }

  /** One element or member, with the white space behind it. */
  function ParseEntry(s: string, kind: Kind): (r: Option<(Entry, string)>)
    ensures r.Some? ==> |r.value.1| < |s|
    decreases |s|, 2
  {
    if kind.Array? then
      match ParseValue(s)
      case None => None
      case Some((v, rest)) => Some((Entry(None, v), Skip(rest)))
    else
      match ParseText(s)
      case None => None
      case Some((key, afterKey)) =>
        var t := Skip(afterKey);
        if t == "" || t[0] != ':' then None
        else
          match ParseValue(Skip(t[1..]))
          case None => None
          case Some((v, rest)) => Some((Entry(Some(key), v), Skip(rest)))
  }

  function ParseEntries(s: string, kind: Kind): (r: Option<(seq<Entry>, string)>)
    ensures r.Some? ==> |r.value.1| < |s|
    decreases |s|, 3
  {
    match ParseEntry(s, kind)
    case None => None
    case Some((entry, t)) =>
      if t == "" then None
      else if t[0] == kind.Close() then Some(([entry], t[1..]))
      else if t[0] != ',' then None
      else match ParseEntries(Skip(t[1..]), kind)
        case None => None
        case Some((entries, rest)) => Some(([entry] + entries, rest))
  }

  /** A whole JSON text: one value with white space around it. */
  function ParseJson(s: string): Option<Value> {
    match ParseValue(Skip(s))
    case None => None
    case Some((v, rest)) => if Skip(rest) == "" then Some(v) else None
  }

  // ----------------------------------------------------------- JSONC documents

  /** The line breaks of a text. */
  function Breaks(s: string): string {
    if s == "" then "" else (if s[0] in "\r\n" then [s[0]] else "") + Breaks(s[1..])
  }

  /** A white-space character, a line comment with its line break, or a block comment. */
  datatype Piece = Space(c: char) | Line(text: string, newline: char) | Block(body: string) {
    predicate Valid() {
      match this
      case Space(c) => IsJsonSpace(c)
      case Line(text, newline) => newline in "\r\n" && forall c <- text :: c !in "\r\n"
      case Block(body) => forall i | 0 <= i < |body| - 1 :: !(body[i] == '*' && body[i + 1] == '/')
    }

    function Print(style: Style): string {
      match this
      case Space(c) => [c]
      case Line(text, newline) => if style.Jsonc? then "//" + text + [newline] else [newline]
      case Block(body) => if style.Jsonc? then "/*" + body + "*/" else Breaks(body)
    }
  }

  /** The text as written, without comments, and without comments and trailing commas. */
  datatype Style = Jsonc | Bare | Clean

  type Trivia = seq<Piece>

  datatype Node =
    | Scalar(lexeme: string)
    | Quoted(raw: string)
    | Container(kind: Kind, items: Items, trailingComma: bool, tail: Trivia)

  datatype Items = Nil | Cons(item: Item, rest: Items)

  datatype Item = Item(before: Trivia, key: Option<Key>, value: Node, after: Trivia)

  /** A raw key with the trivia around its colon. */
  datatype Key = Key(raw: string, beforeColon: Trivia, afterColon: Trivia)

  /** A document; its last line may be a comment that no line break ends. */
  datatype Document = Document(before: Trivia, root: Node, after: Trivia, lastComment: Option<string>)

  predicate ValidTrivia(t: Trivia) { forall p <- t :: p.Valid() }

  predicate ValidNode(n: Node) {
    match n
    case Scalar(lexeme) => IsLexeme(lexeme) && lexeme != "" && forall c <- lexeme :: IsLexemeChar(c)
    case Quoted(raw) => IsRaw(raw)
    case Container(kind, items, comma, tail) => ValidItems(items, kind) && ValidTrivia(tail) && (comma ==> items.Cons?)
  }

  predicate ValidItems(items: Items, kind: Kind) {
    match items
    case Nil => true
    case Cons(Item(before, key, value, after), rest) =>
      && ValidTrivia(before) && ValidTrivia(after)
      && (key.Some? <==> kind.Object?)
      && (key.Some? ==> IsRaw(key.value.raw) && ValidTrivia(key.value.beforeColon) && ValidTrivia(key.value.afterColon))
      && ValidNode(value)
      && ValidItems(rest, kind)
  }

  predicate ValidDocument(d: Document) {
    && ValidTrivia(d.before) && ValidNode(d.root) && ValidTrivia(d.after)
    && (d.lastComment.Some? ==> forall c <- d.lastComment.value :: c !in "\r\n")
  }

  function PrintTrivia(t: Trivia, style: Style): string {
    if t == [] then "" else t[0].Print(style) + PrintTrivia(t[1..], style)
  }

  function Quote(raw: string): string { "\"" + raw + "\"" }

  function PrintNode(n: Node, style: Style): string {
    match n
    case Scalar(lexeme) => lexeme
    case Quoted(raw) => Quote(raw)
    case Container(kind, items, comma, tail) =>
      [kind.Open()] + (PrintItems(items, style)
                       + ((if comma && !style.Clean? then "," else "") + (PrintTrivia(tail, style) + [kind.Close()])))
  }

  function PrintKey(key: Option<Key>, style: Style): string {
    match key
    case None => ""
    case Some(Key(raw, before, after)) =>
      Quote(raw) + (PrintTrivia(before, style) + ([':'] + PrintTrivia(after, style)))
  }

  function PrintItem(i: Item, style: Style): string {
    PrintTrivia(i.before, style) + (PrintKey(i.key, style) + (PrintNode(i.value, style) + PrintTrivia(i.after, style)))
  }

  function PrintItems(items: Items, style: Style): string {
    match items
    case Nil => ""
    case Cons(item, rest) => PrintItem(item, style) + (if rest.Nil? then "" else [','] + PrintItems(rest, style))
  }

  function PrintDocument(d: Document, style: Style): string {
    PrintTrivia(d.before, style) + (PrintNode(d.root, style) + (PrintTrivia(d.after, style)
      + (if d.lastComment.Some? && style.Jsonc? then "//" + d.lastComment.value else "")))
  }

  function Meaning(n: Node): Value {
    match n
    case Scalar(lexeme) => Literal(lexeme)
    case Quoted(raw) => Text(raw)
    case Container(kind, items, _, _) => Group(kind, Meanings(items))
  }

  function Meanings(items: Items): seq<Entry> {
    match items
    case Nil => []
    case Cons(item, rest) =>
      [Entry(if item.key.Some? then Some(item.key.value.raw) else None, Meaning(item.value))] + Meanings(rest)
  }
}
