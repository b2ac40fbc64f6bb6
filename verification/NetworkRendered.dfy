/**
 What the persisted configuration says to those that read it: the keys of networkd's file,
 the stanzas of ifupdown's, and the properties of a NetworkManager connection.
 */
module NetworkRendered {
  import opened Wrappers
  import opened PyText
  import opened Ifupdown
  import opened NetworkStore
  import opened NetworkRestore
  import opened NetworkResume

  // ------------------------------------------------------------------------ lines

  predicate OneLineText(s: string) { '\n' !in s }

  ghost predicate AllOneLine(values: seq<string>) { forall v <- values :: OneLineText(v) }

  function Broken(lines: seq<string>): seq<string> {
    if lines == [] then [] else [lines[0] + "\n"] + Broken(lines[1..])
  }

  /** The lines that are written are the lines that are read. */
  lemma {:induction false} LinesAreRead(lines: seq<string>)
    requires AllOneLine(lines)
    ensures SplitLines(Lines(lines)) == Broken(lines)
  {
    BrokenAreLines(lines);
    LinesJoin(lines);
    SplitJoined(Broken(lines));
  }

  lemma {:induction false} BrokenAreLines(lines: seq<string>)
    requires AllOneLine(lines)
    ensures forall l <- Broken(lines) :: IsComplete(l)
    ensures AreLines(Broken(lines))
  {
    hide IsLine, IsComplete;
    if lines != [] {
      assert lines[0] in lines && forall l <- lines[1..] :: l in lines;
      BrokenAreLines(lines[1..]);
      LineComplete(lines[0]);
      var b := Broken(lines);
      forall i | 0 <= i < |b| ensures IsComplete(b[i]) && IsLine(b[i]) {
        assert i > 0 ==> b[i] == Broken(lines[1..])[i - 1] && b[i] in Broken(lines[1..]);
        if i > 0 { CompleteIsLine(b[i]); } else { CompleteIsLine(b[0]); }
      }
    }
  }

  lemma LineComplete(s: string)
    requires OneLineText(s)
    ensures IsComplete(s + "\n")
  {
    forall i | 0 <= i < |s| ensures (s + "\n")[i] != '\n' { assert (s + "\n")[i] == s[i] && s[i] in s; }
  }

  lemma CompleteIsLine(s: string)
    requires IsComplete(s)
    ensures IsLine(s)
  {
  }

  lemma {:induction false} LinesJoin(lines: seq<string>)
    ensures Join(Broken(lines)) == Lines(lines)
  {
    if lines != [] {
      LinesJoin(lines[1..]);
      assert Broken(lines)[1..] == Broken(lines[1..]);
    }
  }

  lemma {:induction false} BrokenConcat(a: seq<string>, b: seq<string>)
    ensures Broken(a + b) == Broken(a) + Broken(b)
  {
    if a == [] {
      assert a + b == b;
    } else {
      assert (a + b)[1..] == a[1..] + b;
      BrokenConcat(a[1..], b);
    }
  }

  lemma {:induction false} BrokenAt(lines: seq<string>)
    ensures |Broken(lines)| == |lines| && forall i | 0 <= i < |lines| :: Broken(lines)[i] == lines[i] + "\n"
  {
    if lines != [] { BrokenAt(lines[1..]); }
  }

  // --------------------------------------------------------------------- networkd

  /** What a reader of `Key=value` lines finds for a key, in order. */
  function Values(lines: seq<string>, key: string): seq<string> {
    if lines == [] then [] else ValueOf(lines[0], key) + Values(lines[1..], key)
  }

  function ValueOf(line: string, key: string): seq<string> {
    if StartsWith(line, key + "=") then [line[|key| + 1..|line|]] else []
  }

  lemma {:induction false} ValuesConcat(a: seq<string>, b: seq<string>, key: string)
    ensures Values(a + b, key) == Values(a, key) + Values(b, key)
  {
    hide ValueOf;
    if a == [] {
      assert a + b == b;
    } else {
      assert (a + b)[1..] == a[1..] + b;
      ValuesConcat(a[1..], b, key);
    }
  }

  lemma {:induction false} ValuesGiven(prefix: string, values: seq<string>, key: string)
    requires prefix == key + "="
    ensures Values(Prefixed(prefix, values), key) == values
  {
    var lines := Prefixed(prefix, values);
    if values != [] {
      assert lines[0] == prefix + values[0] && lines[0][..|prefix|] == prefix && lines[0][|prefix|..] == values[0];
      assert StartsWith(lines[0], key + "=") && |prefix| == |key| + 1;
      assert lines[0][|key| + 1..|lines[0]|] == values[0];
      assert lines[1..] == Prefixed(prefix, values[1..]);
      ValuesGiven(prefix, values[1..], key);
      assert [values[0]] + values[1..] == values;
    }
  }

  lemma StartsAt(s: string, prefix: string, i: nat)
    requires i < |prefix|
    ensures StartsWith(s, prefix) ==> i < |s| && s[i] == prefix[i]
  {
    if StartsWith(s, prefix) { assert s[..|prefix|][i] == prefix[i]; }
  }

  /** Lines that differ from the key in one character. */
  lemma {:induction false} ValuesNone(lines: seq<string>, key: string, i: nat)
    requires i < |key| && forall l <- lines :: |l| <= i || l[i] != key[i]
    ensures Values(lines, key) == []
  {
    if lines != [] {
      assert lines[0] in lines && forall l <- lines[1..] :: l in lines;
      ValuesNone(lines[1..], key, i);
      StartsAt(lines[0], key + "=", i);
    }
  }

  lemma PrefixedStarts(prefix: string, values: seq<string>, i: nat)
    requires i < |prefix|
    ensures forall l <- Prefixed(prefix, values) :: i < |l| && l[i] == prefix[i]
  {
  }

  lemma ValuesOther(prefix: string, values: seq<string>, key: string, i: nat)
    requires i < |prefix| && i < |key| && prefix[i] != key[i]
    ensures Values(Prefixed(prefix, values), key) == []
  {
    PrefixedStarts(prefix, values, i);
    ValuesNone(Prefixed(prefix, values), key, i);
  }

  /** The lines of networkd's file. */
  function NetworkdHead(interface: string): seq<string> {
    [NOTICE, "[Match]", "Name=" + interface, ""]
  }

  function NetworkdBody(c: Settings): seq<string> {
    ["DHCP=" + if c.static4.None? then "ipv4" else "no"] + ["IPv6AcceptRA=" + if c.static6.Some? then "no" else "yes"]
    + Prefixed("Address=", Cidr(c.static4) + Cidr(c.static6))
    + Prefixed("Gateway=", ListOf(c.gateway4) + ListOf(c.gateway6))
    + Prefixed("DNS=", c.dns)
  }

  lemma NetworkdIs(c: Settings, interface: string)
    ensures RenderNetworkd(c, interface) == Lines(NetworkdHead(interface) + ["[Network]"] + NetworkdBody(c))
  {
    hide Lines, Prefixed;
    var dhcp, ra := if c.static4.None? then "DHCP=ipv4" else "DHCP=no",
                    "IPv6AcceptRA=" + if c.static6.Some? then "no" else "yes";
    assert "DHCP=" + "ipv4" == "DHCP=ipv4" && "DHCP=" + "no" == "DHCP=no";
    Regroup(NetworkdHead(interface), "[Network]", dhcp, ra,
            Prefixed("Address=", Cidr(c.static4) + Cidr(c.static6)),
            Prefixed("Gateway=", ListOf(c.gateway4) + ListOf(c.gateway6)), Prefixed("DNS=", c.dns));
  }

  lemma Regroup(
    head: seq<string>, x: string, y: string, z: string, a: seq<string>, b: seq<string>, d: seq<string>)
    requires |head| == 4
    ensures [head[0], head[1], head[2], head[3], x, y, z] + a + b + d == head + [x] + ([y] + [z] + a + b + d)
  {
  }

  /** The values of the settings stand on one line each. */
  ghost predicate Printed(c: Settings, interface: string) {
    && OneLineText(interface) && AllOneLine(c.dns)
    && AllOneLine(Cidr(c.static4) + Cidr(c.static6)) && AllOneLine(ListOf(c.gateway4) + ListOf(c.gateway6))
  }

  /** One line each, and none opens a section. */
  ghost predicate Plain(lines: seq<string>) {
    forall l <- lines :: OneLineText(l) && !StartsWith(l, "[")
  }

  lemma PrefixedPlain(prefix: string, values: seq<string>)
    requires OneLineText(prefix) && prefix != "" && prefix[0] != '[' && AllOneLine(values)
    ensures Plain(Prefixed(prefix, values))
  {
    forall l <- Prefixed(prefix, values) ensures OneLineText(l) && !StartsWith(l, "[") {
      var i :| 0 <= i < |values| && l == prefix + values[i];
      assert values[i] in values && l[0] == prefix[0];
      StartsAt(l, "[", 0);
    }
  }

  lemma PlainConcat(a: seq<string>, b: seq<string>)
    requires Plain(a) && Plain(b)
    ensures Plain(a + b)
  {
    hide OneLineText, StartsWith;
  }

  /** What lines with the key `own` say to one who asks for `key`. */
  function Said(own: string, values: seq<string>, key: string): seq<string> {
    if key == own then values else []
  }

  lemma BodyParts(c: Settings, key: string)
    requires key in {"DHCP", "IPv6AcceptRA", "Address", "Gateway", "DNS"}
    ensures Values(NetworkdBody(c), key)
         == Said("DHCP", [if c.static4.None? then "ipv4" else "no"], key)
            + Said("IPv6AcceptRA", [if c.static6.Some? then "no" else "yes"], key)
            + Said("Address", Cidr(c.static4) + Cidr(c.static6), key)
            + Said("Gateway", ListOf(c.gateway4) + ListOf(c.gateway6), key) + Said("DNS", c.dns, key)
  {
    hide Values, Prefixed, Said, Cidr, ListOf;
    var dhcp := if c.static4.None? then "ipv4" else "no";
    var ra := if c.static6.Some? then "no" else "yes";
    var a, b := ["DHCP=" + dhcp], ["IPv6AcceptRA=" + ra];
    var d, e, f := Prefixed("Address=", Cidr(c.static4) + Cidr(c.static6)),
                   Prefixed("Gateway=", ListOf(c.gateway4) + ListOf(c.gateway6)), Prefixed("DNS=", c.dns);
    assert NetworkdBody(c) == a + b + d + e + f;
    ValuesConcat(a + b + d + e, f, key);
    ValuesConcat(a + b + d, e, key);
    ValuesConcat(a + b, d, key);
    ValuesConcat(a, b, key);
    OnePrefixed("DHCP=", dhcp);
    OnePrefixed("IPv6AcceptRA=", ra);
    Part("DHCP=", [dhcp], "DHCP", key);
    Part("IPv6AcceptRA=", [ra], "IPv6AcceptRA", key);
    Part("Address=", Cidr(c.static4) + Cidr(c.static6), "Address", key);
    Part("Gateway=", ListOf(c.gateway4) + ListOf(c.gateway6), "Gateway", key);
    Part("DNS=", c.dns, "DNS", key);
  }

  lemma BodyValues(c: Settings, key: string)
    requires key in {"DHCP", "IPv6AcceptRA", "Address", "Gateway", "DNS"}
    ensures Values(NetworkdBody(c), key)
         == match key
            case "DHCP" => [if c.static4.None? then "ipv4" else "no"]
            case "IPv6AcceptRA" => [if c.static6.Some? then "no" else "yes"]
            case "Address" => Cidr(c.static4) + Cidr(c.static6)
            case "Gateway" => ListOf(c.gateway4) + ListOf(c.gateway6)
            case _ => c.dns
  {
    hide Values, NetworkdBody, Cidr, ListOf;
    BodyParts(c, key);
  }

  lemma OnePrefixed(prefix: string, value: string)
    ensures Prefixed(prefix, [value]) == [prefix + value]
  {
  }

  /** Keys that differ do so in their first two characters. */
  lemma Part(prefix: string, values: seq<string>, own: string, key: string)
    requires own in {"DHCP", "IPv6AcceptRA", "Address", "Gateway", "DNS"} && prefix == own + "="
    requires key in {"DHCP", "IPv6AcceptRA", "Address", "Gateway", "DNS"}
    ensures Values(Prefixed(prefix, values), key) == Said(own, values, key)
  {
    hide Values, Prefixed;
    if key == own {
      ValuesGiven(prefix, values, key);
    } else if prefix[0] != key[0] {
      ValuesOther(prefix, values, key, 0);
    } else {
      ValuesOther(prefix, values, key, 1);
    }
  }

  /**
   networkd's file matches the interface alone and asks for what the settings ask: each address,
   gateway and name server in its order, DHCP and router advertisements only for a family
   without a static address.
   */
  lemma NetworkdSays(c: Settings, interface: string)
    requires Printed(c, interface)
    ensures exists head, body ::
              && SplitLines(RenderNetworkd(c, interface)) == Broken(head + ["[Network]"] + body)
              && |head| == 4 && head[1] == "[Match]" && Values(head, "Name") == [interface]
              && (forall l <- body :: !StartsWith(l, "["))
              && Values(body, "DHCP") == [if c.static4.None? then "ipv4" else "no"]
              && Values(body, "IPv6AcceptRA") == [if c.static6.Some? then "no" else "yes"]
              && Values(body, "Address")
                 == (if c.static4.Some? then [c.static4.value.cidr] else [])
                    + (if c.static6.Some? then [c.static6.value.cidr] else [])
              && Values(body, "Gateway")
                 == (if c.gateway4.Some? then [c.gateway4.value] else [])
                    + (if c.gateway6.Some? then [c.gateway6.value] else [])
              && Values(body, "DNS") == c.dns
  {
    hide Values, Lines, Prefixed, SplitLines;
    var head, body := NetworkdHead(interface), NetworkdBody(c);
    NetworkdIs(c, interface);
    HeadValues(interface);
    BodyOneLine(c, interface);
    assert AllOneLine(head + ["[Network]"] + body);
    LinesAreRead(head + ["[Network]"] + body);
    BodyValues(c, "DHCP");
    BodyValues(c, "IPv6AcceptRA");
    BodyValues(c, "Address");
    BodyValues(c, "Gateway");
    BodyValues(c, "DNS");
  }

  lemma NoticeIsOneLine()
    ensures OneLineText(NOTICE) && NOTICE[0] == '#'
  {
    var a, b, c, d := "# Managed by ", "infra_tools. ", "Changes will ", "be overwritten.";
    NoticePieces();
    assert forall x <- NOTICE :: x in a || x in b || x in c || x in d;
    assert NOTICE[0] == a[0];
  }

  lemma NoticePieces()
    ensures OneLineText("# Managed by ") && OneLineText("infra_tools. ") && OneLineText("Changes will ")
            && OneLineText("be overwritten.")
  {
  }

  lemma HeadValues(interface: string)
    requires OneLineText(interface)
    ensures AllOneLine(NetworkdHead(interface)) && Values(NetworkdHead(interface), "Name") == [interface]
  {
    hide Values, StartsWith, OneLineText;
    var a, b, d: seq<string> := [NOTICE, "[Match]"], ["Name=" + interface], [""];
    assert NetworkdHead(interface) == a + b + d;
    NoticeIsOneLine();
    HeadOneLine(interface);
    ValuesConcat(a + b, d, "Name");
    ValuesConcat(a, b, "Name");
    assert a[0][0] == '#' && a[1][0] == '[' && "Name"[0] == 'N';
    ValuesNone(a, "Name", 0);
    ValuesNone(d, "Name", 0);
    OnePrefixed("Name=", interface);
    ValuesGiven("Name=", [interface], "Name");
  }

  lemma HeadOneLine(interface: string)
    requires OneLineText(interface)
    ensures OneLineText("Name=" + interface) && OneLineText("[Match]") && OneLineText("")
  {
  }

  lemma BodyOneLine(c: Settings, interface: string)
    requires Printed(c, interface)
    ensures AllOneLine(NetworkdBody(c)) && forall l <- NetworkdBody(c) :: !StartsWith(l, "[")
  {
    hide Prefixed, Plain, StartsWith;
    var dhcp := if c.static4.None? then "ipv4" else "no";
    var ra := if c.static6.Some? then "no" else "yes";
    var a, b := Prefixed("DHCP=", [dhcp]), Prefixed("IPv6AcceptRA=", [ra]);
    var d, e, f := Prefixed("Address=", Cidr(c.static4) + Cidr(c.static6)),
                   Prefixed("Gateway=", ListOf(c.gateway4) + ListOf(c.gateway6)), Prefixed("DNS=", c.dns);
    OnePrefixed("DHCP=", dhcp);
    OnePrefixed("IPv6AcceptRA=", ra);
    PrefixedPlain("DHCP=", [dhcp]);
    PrefixedPlain("IPv6AcceptRA=", [ra]);
    PrefixedPlain("Address=", Cidr(c.static4) + Cidr(c.static6));
    PrefixedPlain("Gateway=", ListOf(c.gateway4) + ListOf(c.gateway6));
    PrefixedPlain("DNS=", c.dns);
    PlainConcat(a, b);
    PlainConcat(a + b, d);
    PlainConcat(a + b + d, e);
    PlainConcat(a + b + d + e, f);
    PlainMeans(NetworkdBody(c));
  }

  lemma PlainMeans(lines: seq<string>)
    requires Plain(lines)
    ensures AllOneLine(lines) && forall l <- lines :: !StartsWith(l, "[")
  {
  }

  // --------------------------------------------------------------------- ifupdown

  datatype Item = Auto(names: seq<string>) | Iface(name: string, family: string, how: string, options: seq<seq<string>>)

  /** What `interfaces(5)` makes of one line: a comment, a new item, or an option of the last one. */
  function Reads(items: seq<Item>, line: string): seq<Item> {
    var w := Words(line);
    if w == [] || StartsWith(w[0], "#") then items
    else if w[0] == "auto" then items + [Auto(w[1..])]
    else if w[0] == "iface" && |w| == 4 then items + [Iface(w[1], w[2], w[3], [])]
    else if items == [] || items[|items| - 1].Auto? then items
    else
      var last := items[|items| - 1];
      items[..|items| - 1] + [last.(options := last.options + [w])]
  }

  function ReadAll(lines: seq<string>): seq<Item> {
    if lines == [] then [] else Reads(ReadAll(lines[..|lines| - 1]), lines[|lines| - 1])
  }

  function ReadFrom(items: seq<Item>, lines: seq<string>): seq<Item>
    decreases |lines|
  {
    if lines == [] then items else ReadFrom(Reads(items, lines[0]), lines[1..])
  }

  lemma {:induction false} ReadOn(a: seq<string>, b: seq<string>)
    ensures ReadAll(a + b) == ReadFrom(ReadAll(a), b)
    decreases |b|
  {
    hide Reads;
    if b == [] {
      assert a + b == a;
    } else {
      var c := a + [b[0]];
      assert c[..|a|] == a && c + b[1..] == a + b;
      ReadOn(c, b[1..]);
    }
  }

  lemma {:induction false} FromConcat(items: seq<Item>, a: seq<string>, b: seq<string>)
    ensures ReadFrom(items, a + b) == ReadFrom(ReadFrom(items, a), b)
    decreases |a|
  {
    hide Reads;
    if a == [] {
      assert a + b == b;
    } else {
      assert (a + b)[1..] == a[1..] + b;
      FromConcat(Reads(items, a[0]), a[1..], b);
    }
  }

  /** A word that neither begins a comment nor an item. */
  predicate OptionName(w: string) { IsWord(w) && !StartsWith(w, "#") && w != "auto" && w != "iface" }

  lemma OptionLine(items: seq<Item>, last: Item, w: seq<string>, line: string)
    requires w != [] && OptionName(w[0]) && Words(line) == w && last.Iface?
    ensures Reads(items + [last], line) == items + [last.(options := last.options + [w])]
  {
    hide Words;
    assert (items + [last])[..|items|] == items;
  }

  lemma IfaceLine(items: seq<Item>, name: string, family: string, how: string, line: string)
    requires Words(line) == ["iface", name, family, how]
    ensures Reads(items, line) == items + [Iface(name, family, how, [])]
  {
    hide Words;
    assert "iface"[0] == 'i' && !StartsWith("iface", "#") && "iface" != "auto";
  }

  lemma AutoLine(items: seq<Item>, name: string, line: string)
    requires Words(line) == ["auto", name]
    ensures Reads(items, line) == items + [Auto([name])]
  {
    hide Words;
    assert "auto"[0] == 'a' && !StartsWith("auto", "#");
    assert ["auto", name][1..] == [name];
  }

  lemma NothingLine(items: seq<Item>, line: string)
    requires IsBlank(line) || (Words(line) != [] && StartsWith(Words(line)[0], "#"))
    ensures Reads(items, line) == items
  {
    if IsBlank(line) { WordsOfBlank(line); }
  }

  /** Leading spaces make no word. */
  lemma Indented(text: string)
    ensures Words("    " + text) == Words(text)
  {
    hide IsBlank;
    var a, b, c, d := "    " + text, "   " + text, "  " + text, " " + text;
    assert a[1..] == b && b[1..] == c && c[1..] == d && d[1..] == text;
    assert a[0] == b[0] == c[0] == d[0] == ' ';
    assert Words(a) == Words(b);
    assert Words(b) == Words(c);
    assert Words(c) == Words(d);
    assert Words(d) == Words(text);
  }

  lemma TwoWords(a: string, b: string)
    requires IsWord(a) && IsWord(b)
    ensures Words(a + " " + b + "\n") == [a, b] && Words("    " + a + " " + b + "\n") == [a, b]
  {
    hide Words, IsWord;
    WordsOfLine([a, b]);
    assert Spaced([a, b]) == a + ([' '] + b) by { assert [a, b][1..] == [b]; }
    assert Spaced([a, b]) + "\n" == a + " " + b + "\n";
    Indented(a + " " + b + "\n");
    assert "    " + (a + " " + b + "\n") == "    " + a + " " + b + "\n";
  }

  lemma FourWords(a: string, b: string, c: string, d: string)
    requires IsWord(a) && IsWord(b) && IsWord(c) && IsWord(d)
    ensures Words(a + " " + b + " " + c + " " + d + "\n") == [a, b, c, d]
  {
    hide Words, IsWord;
    WordsOfLine([a, b, c, d]);
    assert [a, b, c, d][1..] == [b, c, d] && [b, c, d][1..] == [c, d] && [c, d][1..] == [d];
    assert Spaced([c, d]) == c + ([' '] + d);
    assert Spaced([b, c, d]) == b + ([' '] + Spaced([c, d]));
    assert Spaced([a, b, c, d]) == a + ([' '] + Spaced([b, c, d]));
    assert Spaced([a, b, c, d]) + "\n" == a + " " + b + " " + c + " " + d + "\n";
  }

  lemma ManyWords(a: string, words: seq<string>)
    requires IsWord(a) && words != [] && forall w <- words :: IsWord(w)
    ensures Words("    " + a + " " + Spaced(words) + "\n") == [a] + words
  {
    hide Words, IsWord;
    var all := [a] + words;
    WordsOfLine(all);
    assert all[1..] == words;
    assert Spaced(all) == a + ([' '] + Spaced(words));
    Indented(Spaced(all) + "\n");
    assert "    " + (Spaced(all) + "\n") == "    " + a + " " + Spaced(words) + "\n";
  }

  lemma Keywords()
    ensures IsWord("iface") && IsWord("auto") && IsWord("inet") && IsWord("inet6") && IsWord("static") && IsWord("dhcp")
    ensures OptionName("address") && OptionName("gateway") && OptionName("dns-nameservers")
  {
    assert "address"[0] == 'a' && "gateway"[0] == 'g' && "dns-nameservers"[0] == 'd' && "#"[0] == '#';
    assert "address"[1] == 'd' && "auto"[1] == 'u' && "iface"[0] == 'i';
    LongKeyword();
  }

  lemma LongKeyword()
    ensures IsWord("dns-nameservers")
  {
    var a, b := "dns-name", "servers";
    assert IsWord(a) && IsWord(b) && a + b == "dns-nameservers";
    assert forall x <- a + b :: x in a || x in b;
  }

  /** The settings are words, as their validation has it. */
  ghost predicate Worded(c: Settings, interface: string) {
    && IsWord(interface) && (forall v <- c.dns :: IsWord(v))
    && (c.static4.Some? ==> IsWord(c.static4.value.cidr)) && (c.static6.Some? ==> IsWord(c.static6.value.cidr))
    && (c.gateway4.Some? ==> IsWord(c.gateway4.value)) && (c.gateway6.Some? ==> IsWord(c.gateway6.value))
  }

  function AddressOptions(address: Option<Address>, gateway: Option<string>): seq<seq<string>> {
    if address.None? then []
    else [["address", address.value.cidr]] + (if gateway.Some? then [["gateway", gateway.value]] else [])
  }

  function MethodOf(address: Option<Address>, otherwise: string): string {
    if address.Some? then "static" else otherwise
  }

  /** The lines of one family. */
  function FamilyLines(
    interface: string, family: string, otherwise: string, address: Option<Address>, gateway: Option<string>):
    seq<string>
  {
    ["iface" + " " + interface + " " + family + " " + MethodOf(address, otherwise)]
    + (if address.None? then []
       else ["    " + "address" + " " + address.value.cidr] + Prefixed("    gateway ", ListOf(gateway)))
  }

  lemma FamilyIsRead(
    items: seq<Item>, interface: string, family: string, otherwise: string, address: Option<Address>,
    gateway: Option<string>)
    requires IsWord(interface) && IsWord(family) && IsWord(otherwise)
    requires (address.Some? ==> IsWord(address.value.cidr)) && (gateway.Some? ==> IsWord(gateway.value))
    ensures ReadFrom(items, Broken(FamilyLines(interface, family, otherwise, address, gateway)))
         == items + [Iface(interface, family, MethodOf(address, otherwise), AddressOptions(address, gateway))]
  {
    hide Words, IsWord, Reads;
    Keywords();
    var how := MethodOf(address, otherwise);
    var head := "iface" + " " + interface + " " + family + " " + how;
    var iface := Iface(interface, family, how, []);
    FourWords("iface", interface, family, how);
    IfaceLine(items, interface, family, how, head + "\n");
    var lines := FamilyLines(interface, family, otherwise, address, gateway);
    if address.None? {
      assert lines == [head] && Broken(lines) == [head + "\n"];
      OneFrom(items, head + "\n");
    } else {
      var a := "    " + "address" + " " + address.value.cidr;
      var one := iface.(options := [["address", address.value.cidr]]);
      TwoWords("address", address.value.cidr);
      OptionLine(items, iface, ["address", address.value.cidr], a + "\n");
      assert [] + [["address", address.value.cidr]] == [["address", address.value.cidr]];
      if gateway.None? {
        assert Prefixed("    gateway ", ListOf(gateway)) == [];
        assert lines == [head, a];
        TwoFrom(items, head, a);
        assert AddressOptions(address, gateway) == [["address", address.value.cidr]];
      } else {
        var g := "    " + "gateway" + " " + gateway.value;
        assert "    gateway " + gateway.value == g by { assert "    " + "gateway" + " " == "    gateway "; }
        OnePrefixed("    gateway ", gateway.value);
        assert lines == [head, a, g];
        TwoWords("gateway", gateway.value);
        OptionLine(items, one, ["gateway", gateway.value], g + "\n");
        ThreeFrom(items, head, a, g);
        assert one.options + [["gateway", gateway.value]] == AddressOptions(address, gateway);
      }
    }
  }

  lemma OneFrom(items: seq<Item>, l: string)
    ensures ReadFrom(items, [l]) == Reads(items, l)
  {
    hide Reads;
    assert [l][1..] == [];
  }

  lemma TwoFrom(items: seq<Item>, a: string, b: string)
    ensures ReadFrom(items, Broken([a, b])) == Reads(Reads(items, a + "\n"), b + "\n")
  {
    hide Reads;
    BrokenAt([a, b]);
    assert Broken([a, b]) == [a + "\n", b + "\n"];
    assert [a + "\n", b + "\n"][1..] == [b + "\n"];
    OneFrom(Reads(items, a + "\n"), b + "\n");
  }

  lemma ThreeFrom(items: seq<Item>, a: string, b: string, c: string)
    ensures ReadFrom(items, Broken([a, b, c])) == Reads(Reads(Reads(items, a + "\n"), b + "\n"), c + "\n")
  {
    hide Reads;
    BrokenConcat([a, b], [c]);
    assert [a, b] + [c] == [a, b, c];
    FromConcat(items, Broken([a, b]), Broken([c]));
    TwoFrom(items, a, b);
    assert Broken([c]) == [c + "\n"];
    OneFrom(Reads(Reads(items, a + "\n"), b + "\n"), c + "\n");
  }

  function DnsOptions(dns: seq<string>): seq<seq<string>> {
    if dns == [] then [] else [["dns-nameservers"] + dns]
  }

  function DnsLines(dns: seq<string>): seq<string> {
    if dns == [] then [] else ["    " + "dns-nameservers" + " " + Spaced(dns)]
  }

  lemma DnsIsRead(items: seq<Item>, last: Item, dns: seq<string>)
    requires last.Iface? && forall v <- dns :: IsWord(v)
    ensures ReadFrom(items + [last], Broken(DnsLines(dns)))
         == items + [last.(options := last.options + DnsOptions(dns))]
  {
    hide Words, IsWord, Reads;
    if dns == [] {
      assert last.options + [] == last.options;
    } else {
      Keywords();
      var line := "    " + "dns-nameservers" + " " + Spaced(dns);
      ManyWords("dns-nameservers", dns);
      OptionLine(items, last, ["dns-nameservers"] + dns, line + "\n");
      assert Broken([line]) == [line + "\n"];
      OneFrom(items + [last], line + "\n");
    }
  }

  /** The text in these pieces. */
  lemma IfupdownIs(c: Settings, interface: string)
    ensures RenderIfupdown(c, interface)
         == Lines([NOTICE, "auto" + " " + interface] + FamilyLines(interface, "inet", "dhcp", c.static4, c.gateway4)
                  + DnsLines(c.dns) + [""] + FamilyLines(interface, "inet6", "auto", c.static6, c.gateway6))
  {
    hide Lines, FamilyLines, DnsLines;
    FourIs(c, interface);
    SixIs(c, interface);
    DnsIs(c);
    assert "auto" + " " + interface == "auto " + interface by { IfupdownPieces(c, interface); }
    var head := [NOTICE, "auto " + interface];
    var four := FamilyLines(interface, "inet", "dhcp", c.static4, c.gateway4);
    var six := FamilyLines(interface, "inet6", "auto", c.static6, c.gateway6);
    assert head + four + DnsLines(c.dns) + [""] + six == head + four + DnsLines(c.dns) + ([""] + six);
  }

  lemma FourIs(c: Settings, interface: string)
    ensures FamilyLines(interface, "inet", "dhcp", c.static4, c.gateway4)
         == if c.static4.None? then ["iface " + interface + " inet dhcp"]
            else ["iface " + interface + " inet static", "    address " + c.static4.value.cidr]
                 + Prefixed("    gateway ", ListOf(c.gateway4))
  {
    hide Prefixed;
    IfupdownPieces(c, interface);
    if c.static4.Some? {
      assert ["iface " + interface + " inet static"]
             + (["    address " + c.static4.value.cidr] + Prefixed("    gateway ", ListOf(c.gateway4)))
          == ["iface " + interface + " inet static", "    address " + c.static4.value.cidr]
             + Prefixed("    gateway ", ListOf(c.gateway4));
    }
  }

  lemma SixIs(c: Settings, interface: string)
    ensures [""] + FamilyLines(interface, "inet6", "auto", c.static6, c.gateway6)
         == if c.static6.None? then ["", "iface " + interface + " inet6 auto"]
            else ["", "iface " + interface + " inet6 static", "    address " + c.static6.value.cidr]
                 + Prefixed("    gateway ", ListOf(c.gateway6))
  {
    hide Prefixed;
    IfupdownPieces(c, interface);
    if c.static6.Some? {
      assert [""] + (["iface " + interface + " inet6 static"]
             + (["    address " + c.static6.value.cidr] + Prefixed("    gateway ", ListOf(c.gateway6))))
          == ["", "iface " + interface + " inet6 static", "    address " + c.static6.value.cidr]
             + Prefixed("    gateway ", ListOf(c.gateway6));
    }
  }

  lemma DnsIs(c: Settings)
    ensures DnsLines(c.dns) == if c.dns == [] then [] else ["    dns-nameservers " + Spaced(c.dns)]
  {
    hide Spaced;
    assert "    " + "dns-nameservers" + " " == "    dns-nameservers ";
  }

  lemma IfupdownPieces(c: Settings, interface: string)
    ensures "auto" + " " + interface == "auto " + interface
    ensures "iface" + " " + interface + " " + "inet" + " " + "static" == "iface " + interface + " inet static"
    ensures "iface" + " " + interface + " " + "inet" + " " + "dhcp" == "iface " + interface + " inet dhcp"
    ensures "iface" + " " + interface + " " + "inet6" + " " + "static" == "iface " + interface + " inet6 static"
    ensures "iface" + " " + interface + " " + "inet6" + " " + "auto" == "iface " + interface + " inet6 auto"
    ensures forall x: string :: "    " + "address" + " " + x == "    address " + x
    ensures forall x: string :: "    " + "dns-nameservers" + " " + x == "    dns-nameservers " + x
  {
    assert "auto" + " " == "auto " && "iface" + " " == "iface ";
    assert " " + "inet" + " " + "static" == " inet static" && " " + "inet" + " " + "dhcp" == " inet dhcp";
    assert " " + "inet6" + " " + "static" == " inet6 static" && " " + "inet6" + " " + "auto" == " inet6 auto";
    assert "    " + "address" + " " == "    address ";
    assert "    " + "dns-nameservers" + " " == "    dns-nameservers ";
  }

  lemma WordOneLine(w: string)
    requires IsWord(w)
    ensures OneLineText(w)
  {
    assert IsSpace('\n');
  }

  /**
   ifupdown's file brings the interface up with one stanza for each family: static with the
   requested address and gateway, or automatic, and the name servers with the first.
   */
  lemma IfupdownSays(c: Settings, interface: string)
    requires Worded(c, interface)
    ensures ReadAll(SplitLines(RenderIfupdown(c, interface)))
         == [Auto([interface]),
             Iface(interface, "inet", if c.static4.Some? then "static" else "dhcp",
                   AddressOptions(c.static4, c.gateway4) + DnsOptions(c.dns)),
             Iface(interface, "inet6", if c.static6.Some? then "static" else "auto",
                   AddressOptions(c.static6, c.gateway6))]
  {
    hide Words, IsWord, Reads, ReadFrom, ReadAll, Lines, SplitLines, FamilyLines, DnsLines, Broken;
    Keywords();
    var auto := "auto" + " " + interface;
    var four := FamilyLines(interface, "inet", "dhcp", c.static4, c.gateway4);
    var six := FamilyLines(interface, "inet6", "auto", c.static6, c.gateway6);
    var dns := DnsLines(c.dns);
    var lines := [NOTICE, auto] + four + dns + [""] + six;
    IfupdownIs(c, interface);
    IfupdownOneLine(c, interface);
    LinesAreRead(lines);
    BrokenConcat([NOTICE, auto] + four + dns + [""], six);
    BrokenConcat([NOTICE, auto] + four + dns, [""]);
    BrokenConcat([NOTICE, auto] + four, dns);
    BrokenConcat([NOTICE, auto], four);
    var a, b, d, e, f := Broken([NOTICE, auto]), Broken(four), Broken(dns), Broken([""]), Broken(six);
    assert SplitLines(RenderIfupdown(c, interface)) == a + b + d + e + f;
    ReadOn([], a + b + d + e + f);
    assert [] + (a + b + d + e + f) == a + b + d + e + f;
    assert ReadAll([]) == [] by { ReadNothing(); }
    FromConcat([], a + b + d + e, f);
    FromConcat([], a + b + d, e);
    FromConcat([], a + b, d);
    FromConcat([], a, b);
    HeadIsRead(interface);
    var four4 := Iface(interface, "inet", MethodOf(c.static4, "dhcp"), AddressOptions(c.static4, c.gateway4));
    FamilyIsRead([Auto([interface])], interface, "inet", "dhcp", c.static4, c.gateway4);
    DnsIsRead([Auto([interface])], four4, c.dns);
    var items := [Auto([interface])] + [four4.(options := four4.options + DnsOptions(c.dns))];
    EmptyLineRead(items);
    FamilyIsRead(items, interface, "inet6", "auto", c.static6, c.gateway6);
  }

  lemma ReadNothing()
    ensures ReadAll([]) == []
  {
  }

  lemma EmptyLineRead(items: seq<Item>)
    ensures ReadFrom(items, Broken([""])) == items
  {
    hide Words, Reads;
    assert "" + "\n" == "\n" && Broken([""]) == ["\n"];
    assert IsBlank("\n") by { assert IsSpace('\n'); }
    NothingLine(items, "\n");
    OneFrom(items, "\n");
  }

  lemma HeadIsRead(interface: string)
    requires IsWord(interface)
    ensures ReadFrom([], Broken([NOTICE, "auto" + " " + interface])) == [Auto([interface])]
  {
    hide Words, Reads, IsWord;
    Keywords();
    NoticeIsComment();
    NothingLine([], NOTICE + "\n");
    TwoWords("auto", interface);
    AutoLine([], interface, "auto" + " " + interface + "\n");
    TwoFrom([], NOTICE, "auto" + " " + interface);
    assert [] + [Auto([interface])] == [Auto([interface])];
  }

  lemma NoticeIsComment()
    ensures Words(NOTICE + "\n") != [] && StartsWith(Words(NOTICE + "\n")[0], "#")
  {
    hide Words;
    var rest := (" Managed by " + "infra_tools. ") + ("Changes will " + "be overwritten.") + "\n";
    assert "#" + " Managed by " == "# Managed by ";
    assert NOTICE + "\n" == "#" + rest;
    assert rest[0] == " Managed by "[0] == ' ' && IsSpace(' ') && IsWord("#");
    WordsCons("#", rest);
  }

  lemma IfupdownOneLine(c: Settings, interface: string)
    requires Worded(c, interface)
    ensures AllOneLine([NOTICE, "auto" + " " + interface]
                       + FamilyLines(interface, "inet", "dhcp", c.static4, c.gateway4)
                       + DnsLines(c.dns) + [""] + FamilyLines(interface, "inet6", "auto", c.static6, c.gateway6))
  {
    hide IsWord, FamilyLines, DnsLines, OneLineText;
    NoticeIsOneLine();
    Keywords();
    WordOneLine(interface);
    Keyword2(interface);
    FamilyOneLine(interface, "inet", "dhcp", c.static4, c.gateway4);
    FamilyOneLine(interface, "inet6", "auto", c.static6, c.gateway6);
    DnsOneLine(c.dns);
  }

  lemma Keyword2(interface: string)
    requires OneLineText(interface)
    ensures OneLineText("auto" + " " + interface) && OneLineText("")
  {
  }

  lemma FamilyOneLine(
    interface: string, family: string, otherwise: string, address: Option<Address>, gateway: Option<string>)
    requires IsWord(interface) && IsWord(family) && IsWord(otherwise)
    requires (address.Some? ==> IsWord(address.value.cidr)) && (gateway.Some? ==> IsWord(gateway.value))
    ensures AllOneLine(FamilyLines(interface, family, otherwise, address, gateway))
  {
    hide IsWord;
    Keywords();
    WordOneLine(interface);
    WordOneLine(family);
    WordOneLine(otherwise);
    if address.Some? { WordOneLine(address.value.cidr); }
    if gateway.Some? { WordOneLine(gateway.value); }
    assert OneLineText("iface") && OneLineText("    address ") && OneLineText("    gateway ") && OneLineText("static");
    forall l <- FamilyLines(interface, family, otherwise, address, gateway) ensures OneLineText(l) {
    }
  }

  lemma DnsOneLine(dns: seq<string>)
    requires forall v <- dns :: IsWord(v)
    ensures AllOneLine(DnsLines(dns))
  {
    SpacedHasNoBreak(dns);
    assert OneLineText("    ") && OneLineText("dns-nameservers") by { Keywords(); WordOneLine("dns-nameservers"); }
  }

  // --------------------------------------------------------------- NetworkManager

  /** What lies between the commas. */
  function CommaItems(s: string, item: string): seq<string> {
    if s == "" then [item]
    else if s[0] == ',' then [item] + CommaItems(s[1..], "")
    else CommaItems(s[1..], item + [s[0]])
  }

  lemma {:induction false} ItemEnds(a: string, item: string, rest: string)
    requires ',' !in a && (rest == "" || rest[0] == ',')
    ensures CommaItems(a + rest, item)
         == [item + a] + (if rest == "" then [] else CommaItems(rest[1..], ""))
    decreases |a|
  {
    if a == "" {
      assert a + rest == rest && item + a == item;
    } else {
      assert a[0] in a && forall c <- a[1..] :: c in a;
      assert (a + rest)[0] == a[0] && (a + rest)[1..] == a[1..] + rest;
      ItemEnds(a[1..], item + [a[0]], rest);
      assert (item + [a[0]]) + a[1..] == item + a;
    }
  }

  /** Values joined with commas are read back. */
  lemma {:induction false} CommasAreRead(values: seq<string>)
    requires values != [] && forall v <- values :: ',' !in v
    ensures CommaItems(JoinComma(values), "") == values
  {
    var v, rest := values[0], values[1..];
    assert v in values && (forall w <- rest :: w in values) && "" + v == v && [v] + rest == values;
    if rest == [] {
      assert v + "" == v;
      ItemEnds(v, "", "");
    } else {
      var tail := "," + JoinComma(rest);
      assert JoinComma(values) == v + tail && tail[1..] == JoinComma(rest);
      ItemEnds(v, "", tail);
      CommasAreRead(rest);
    }
  }

  lemma {:induction false} ServersConcat(a: seq<string>, b: seq<string>, colon: bool)
    ensures DnsServers(a + b, colon) == DnsServers(a, colon) + DnsServers(b, colon)
  {
    if a == [] {
      assert a + b == b;
    } else {
      assert (a + b)[1..] == a[1..] + b;
      ServersConcat(a[1..], b, colon);
    }
  }

  /** The servers are told apart by the colon, and none is lost; by `ServersConcat` each kind keeps its order. */
  lemma {:induction false} ServersByColon(dns: seq<string>, v: string)
    ensures multiset(DnsServers(dns, true))[v] == if ':' in v then multiset(dns)[v] else 0
    ensures multiset(DnsServers(dns, false))[v] == if ':' in v then 0 else multiset(dns)[v]
  {
    if dns != [] {
      ServersByColon(dns[1..], v);
      assert dns == [dns[0]] + dns[1..];
      assert multiset(dns) == multiset{dns[0]} + multiset(dns[1..]);
    }
  }

  /** One family's properties as they are asked for, or as they were. */
  ghost predicate FamilySet(
    after: map<Property, string>, before: map<Property, string>, address: Option<Address>, gateway: Option<string>,
    how: Property, addresses: Property, via: Property, neverDefault: Property)
  {
    if address.None? then forall p <- [how, addresses, via, neverDefault] :: SameProperty(after, before, p)
    else
      && how in after && after[how] == "manual"
      && addresses in after && after[addresses] == address.value.cidr
      && via in after && after[via] == (if gateway.Some? then gateway.value else "")
      && neverDefault in after && after[neverDefault] == (if gateway.Some? then "no" else "yes")
  }

  predicate SameProperty(after: map<Property, string>, before: map<Property, string>, p: Property) {
    (p in after <==> p in before) && (p in after ==> after[p] == before[p])
  }

  ghost predicate ServersSet(
    after: map<Property, string>, before: map<Property, string>, servers: seq<string>, dns: Property, ignore: Property)
  {
    if servers == [] then SameProperty(after, before, dns) && SameProperty(after, before, ignore)
    else dns in after && after[dns] == JoinComma(servers) && ignore in after && after[ignore] == "yes"
  }

  /**
   A NetworkManager connection has, for each requested family, the manual method, the address and
   the gateway, and is the default exactly when it has one; it has the name servers of each
   family; everything else is as it was.
   */
  lemma ManagerSays(s: Store, c: Settings, connection: string, interface: string)
    requires connection in s.connections
    ensures var t := ExecAll(s, NetworkManagerSteps(c, connection), interface);
            && t.files == s.files && t.connections.Keys == s.connections.Keys
            && (forall k <- s.connections | k != connection :: t.connections[k] == s.connections[k])
            && var after, before := t.connections[connection], s.connections[connection];
               && FamilySet(after, before, c.static4, c.gateway4, Ip4Method, Ip4Addresses, Ip4Gateway, Ip4NeverDefault)
               && FamilySet(after, before, c.static6, c.gateway6, Ip6Method, Ip6Addresses, Ip6Gateway, Ip6NeverDefault)
               && ServersSet(after, before, DnsServers(c.dns, false), Ip4Dns, Ip4IgnoreAutoDns)
               && ServersSet(after, before, DnsServers(c.dns, true), Ip6Dns, Ip6IgnoreAutoDns)
               && forall name :: SameProperty(after, before, OtherProperty(name))
  {
    hide ExecAll, NetworkManagerSteps, DnsServers, JoinComma, FamilySet, ServersSet, Changes4, Changes6, ChangesDns;
    NetworkManagerPersists(s, c, connection, interface);
    var before := s.connections[connection];
    FourSet(c, before);
    SixSet(c, before);
    NamesSet(c, before);
    OthersStay(c, before);
  }

  /** The connection's properties with the changes of a persist. */
  function Merged(c: Settings, before: map<Property, string>): map<Property, string> {
    before + (if c.static4.Some? then Changes4(c) else map[]) + (if c.static6.Some? then Changes6(c) else map[])
    + ChangesDns(c)
  }

  lemma MergedAt(c: Settings, before: map<Property, string>, p: Property)
    ensures var four := if c.static4.Some? then Changes4(c) else map[];
            var six := if c.static6.Some? then Changes6(c) else map[];
            var dns, after := ChangesDns(c), Merged(c, before);
            && (p in after <==> p in dns || p in six || p in four || p in before)
            && (p in after ==>
                  after[p] == if p in dns then dns[p] else if p in six then six[p] else if p in four then four[p]
                              else before[p])
  {
    hide Changes4, Changes6, ChangesDns;
  }

  lemma KeysFour(c: Settings)
    requires c.static4.Some?
    ensures Changes4(c).Keys == {Ip4Method, Ip4Addresses, Ip4Gateway, Ip4NeverDefault}
  {
  }

  lemma KeysSix(c: Settings)
    requires c.static6.Some?
    ensures Changes6(c).Keys == {Ip6Method, Ip6Addresses, Ip6Gateway, Ip6NeverDefault}
  {
  }

  lemma KeysDns(c: Settings)
    ensures var four, six := DnsServers(c.dns, false), DnsServers(c.dns, true);
            && ChangesDns(c).Keys == (if four == [] then {} else {Ip4Dns, Ip4IgnoreAutoDns})
                                     + (if six == [] then {} else {Ip6Dns, Ip6IgnoreAutoDns})
            && (four != [] ==> ChangesDns(c)[Ip4Dns] == JoinComma(four) && ChangesDns(c)[Ip4IgnoreAutoDns] == "yes")
            && (six != [] ==> ChangesDns(c)[Ip6Dns] == JoinComma(six) && ChangesDns(c)[Ip6IgnoreAutoDns] == "yes")
  {
    hide DnsServers, JoinComma;
  }

  lemma AllKeys(c: Settings)
    ensures c.static4.Some? ==> Changes4(c).Keys == {Ip4Method, Ip4Addresses, Ip4Gateway, Ip4NeverDefault}
    ensures c.static6.Some? ==> Changes6(c).Keys == {Ip6Method, Ip6Addresses, Ip6Gateway, Ip6NeverDefault}
    ensures ChangesDns(c).Keys <= {Ip4Dns, Ip4IgnoreAutoDns, Ip6Dns, Ip6IgnoreAutoDns}
  {
    hide Changes4, Changes6, ChangesDns, DnsServers;
    if c.static4.Some? { KeysFour(c); }
    if c.static6.Some? { KeysSix(c); }
    KeysDns(c);
  }

  /** A property of a family has what the family's changes say, or what it had. */
  lemma FourAt(c: Settings, before: map<Property, string>, p: Property)
    requires p in {Ip4Method, Ip4Addresses, Ip4Gateway, Ip4NeverDefault}
    ensures if c.static4.None? then SameProperty(Merged(c, before), before, p)
            else p in Changes4(c) && p in Merged(c, before) && Merged(c, before)[p] == Changes4(c)[p]
  {
    hide Changes4, Changes6, ChangesDns, Merged;
    AllKeys(c);
    MergedAt(c, before, p);
    assert p !in ChangesDns(c).Keys;
  }

  lemma SixAt(c: Settings, before: map<Property, string>, p: Property)
    requires p in {Ip6Method, Ip6Addresses, Ip6Gateway, Ip6NeverDefault}
    ensures if c.static6.None? then SameProperty(Merged(c, before), before, p)
            else p in Changes6(c) && p in Merged(c, before) && Merged(c, before)[p] == Changes6(c)[p]
  {
    hide Changes4, Changes6, ChangesDns, Merged;
    AllKeys(c);
    MergedAt(c, before, p);
    assert p !in ChangesDns(c).Keys;
  }

  lemma FourSet(c: Settings, before: map<Property, string>)
    ensures FamilySet(Merged(c, before), before, c.static4, c.gateway4, Ip4Method, Ip4Addresses, Ip4Gateway,
                      Ip4NeverDefault)
  {
    hide Merged;
    FourAt(c, before, Ip4Method);
    FourAt(c, before, Ip4Addresses);
    FourAt(c, before, Ip4Gateway);
    FourAt(c, before, Ip4NeverDefault);
  }

  lemma SixSet(c: Settings, before: map<Property, string>)
    ensures FamilySet(Merged(c, before), before, c.static6, c.gateway6, Ip6Method, Ip6Addresses, Ip6Gateway,
                      Ip6NeverDefault)
  {
    hide Merged;
    SixAt(c, before, Ip6Method);
    SixAt(c, before, Ip6Addresses);
    SixAt(c, before, Ip6Gateway);
    SixAt(c, before, Ip6NeverDefault);
  }

  lemma NamesSet(c: Settings, before: map<Property, string>)
    ensures ServersSet(Merged(c, before), before, DnsServers(c.dns, false), Ip4Dns, Ip4IgnoreAutoDns)
    ensures ServersSet(Merged(c, before), before, DnsServers(c.dns, true), Ip6Dns, Ip6IgnoreAutoDns)
  {
    hide DnsServers, JoinComma, Merged, Changes4, Changes6, ChangesDns;
    AllKeys(c);
    KeysDns(c);
    MergedAt(c, before, Ip4Dns);
    MergedAt(c, before, Ip4IgnoreAutoDns);
    MergedAt(c, before, Ip6Dns);
    MergedAt(c, before, Ip6IgnoreAutoDns);
  }

  lemma OthersStay(c: Settings, before: map<Property, string>)
    ensures forall name :: SameProperty(Merged(c, before), before, OtherProperty(name))
  {
    hide Merged, Changes4, Changes6, ChangesDns;
    AllKeys(c);
    forall name ensures SameProperty(Merged(c, before), before, OtherProperty(name)) {
      MergedAt(c, before, OtherProperty(name));
      assert OtherProperty(name) !in ChangesDns(c).Keys;
    }
  }

  /** networkd's backend leaves its file with the rendered text, and changes no other but cloud-init's. */
  lemma NetworkdPersists(s: Store, c: Settings, interface: string, r: Rollback, cloudInit: bool)
    ensures var t := ExecAll(s, PersistProgram(SystemdNetworkd, c, interface, r, cloudInit), interface);
            && t.connections == s.connections
            && Networkd in t.files && t.files[Networkd] == File(RenderNetworkd(c, interface), 0x1A4)
            && (cloudInit ==> CloudInit in t.files && t.files[CloudInit] == File(CLOUD_INIT_CONTENT, 0x1A4))
            && AgreeOutside(t.files, s.files, {Networkd} + (if cloudInit then {CloudInit} else {}))
  {
    hide RenderNetworkd;
    var program := PersistProgram(SystemdNetworkd, c, interface, r, cloudInit);
    assert Exec(s, program, 0, interface) == s;
    assert Exec(s, program, 1, interface) == Effect(s, program[0], interface);
  }

  /** cloud-init is told to leave the network alone. */
  lemma CloudInitSays()
    ensures SplitLines(CLOUD_INIT_CONTENT) == Broken(["# Managed by infra_tools", "network: {config: disabled}"])
  {
    hide SplitLines;
    var a, b := "# Managed by infra_tools", "network: {config: disabled}";
    CloudInitPieces();
    assert Lines([a, b]) == a + "\n" + (b + "\n" + "") by {
      assert [a, b][1..] == [b] && [b][1..] == [];
      assert Lines([b]) == b + "\n" + Lines([]);
    }
    LinesAreRead([a, b]);
  }

  lemma CloudInitPieces()
    ensures OneLineText("# Managed by infra_tools") && OneLineText("network: {config: disabled}")
    ensures CLOUD_INIT_CONTENT == "# Managed by infra_tools" + "\n" + ("network: {config: disabled}" + "\n" + "")
  {
    var a, b := "# Managed by infra_tools" + "\n", "network: {config: disabled}" + "\n";
    assert CLOUD_INIT_CONTENT == a + b && b + "" == b;
  }

  /** Every backend ends with that, where cloud-init is there. */
  lemma PersistDisablesCloudInit(
    s: Store, backend: Backend, c: Settings, interface: string, r: Rollback, cloudInit: bool)
    ensures var t := ExecAll(s, PersistProgram(backend, c, interface, r, cloudInit), interface);
            cloudInit ==> CloudInit in t.files && t.files[CloudInit] == File(CLOUD_INIT_CONTENT, 0x1A4)
  {
    hide BackendSteps;
    if cloudInit {
      var steps := BackendSteps(backend, c, interface, r);
      assert (steps + [Write(CloudInit, CLOUD_INIT_CONTENT, 0x1A4)])[|steps|]
          == Write(CloudInit, CLOUD_INIT_CONTENT, 0x1A4);
    }
  }
}
