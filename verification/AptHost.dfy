/** The repair as it runs: loops over stanzas, lines and files, and the managed file written or removed. */
module AptHost {
  import opened Wrappers
  import opened PyText
  import opened AptText
  import opened AptStanzas
  import opened AptSources
  import opened AptRepair

  /** The text with the marked stanzas commented out, and whether there was one. */
  method DisableStanzas(content: string, marked: Mark) returns (text: string, changed: bool)
    ensures text == Rewritten(StanzasFrom(SplitLines(content), []), Marks(marked))
    ensures changed <==> exists s <- StanzasFrom(SplitLines(content), []) :: marked(FieldsOf(s).values)
  {
    hide FieldsOf, StanzasFrom, SplitLines, CommentLines;
    var stanzas := Deb822Stanzas(content);
    text, changed := "", false;
    assert stanzas[|stanzas|..] == [] && stanzas[0..] == stanzas;
    for i := 0 to |stanzas|
      invariant text + Rewritten(stanzas[i..], Marks(marked)) == Rewritten(stanzas, Marks(marked))
      invariant changed <==> exists j | 0 <= j < i :: marked(FieldsOf(stanzas[j]).values)
    {
      var s := stanzas[i];
      assert stanzas[i..][0] == s && stanzas[i..][1..] == stanzas[i + 1..];
      var fields := Deb822Fields(s);
      var output := s;
      if marked(fields) {
        output := CommentLines(s);
        changed := true;
      }
      Associates(text, Join(output) + "\n", Rewritten(stanzas[i + 1..], Marks(marked)));
      text := text + (Join(output) + "\n");
    }
    assert text + "" == text;
    if changed {
      var j :| 0 <= j < |stanzas| && marked(FieldsOf(stanzas[j]).values);
      assert stanzas[j] in stanzas;
    }
  }

  lemma Associates(a: string, b: string, c: string)
    ensures (a + b) + c == a + (b + c)
  {
  }

  /** The text with the marked lines commented out. */
  method DisableMarkedLines(content: string, line: string -> bool) returns (text: string)
    ensures text == Join(DisableLines(SplitLines(content), line))
  {
    var lines := SplitLines(content);
    var output: seq<string> := [];
    assert lines[|lines|..] == [] && lines[0..] == lines;
    for i := 0 to |lines|
      invariant output + DisableLines(lines[i..], line) == DisableLines(lines, line)
    {
      assert lines[i..][0] == lines[i] && lines[i..][1..] == lines[i + 1..];
      var l := if line(lines[i]) then DISABLED + lines[i] else lines[i];
      assert output + ([l] + DisableLines(lines[i + 1..], line)) == (output + [l]) + DisableLines(lines[i + 1..], line);
      output := output + [l];
    }
    assert output + [] == output;
    return Join(output);
  }

  method DisableFile(f: Source, line: string -> bool, marked: Mark) returns (g: Source)
    ensures g == DisableIn(f, line, marked)
  {
    hide FieldsOf, StanzasFrom, SplitLines, Rewritten, DisableLines;
    if f.deb822 {
      var text, changed := DisableStanzas(f.content, marked);
      g := if changed then f.(content := text) else f;
    } else {
      var text := DisableMarkedLines(f.content, line);
      g := f.(content := text);
    }
  }

  class AptDirectory {
    var before: seq<Source>
    var managed: Option<string>
    var after: seq<Source>

    function Value(): Dir
      reads this
    {
      Dir(before, managed, after)
    }

    constructor (d: Dir)
      ensures Value() == d
    {
      before, managed, after := d.before, d.managed, d.after;
    }

    /** Both passes over the files of one place. */
    method RepairFiles(files: seq<Source>, r: Release) returns (repaired: seq<Source>)
      ensures repaired == RepairAll(files, r)
    {
      hide DisableIn, CdromFields, StaleFields, StaleLine;
      repaired := [];
      assert files[|files|..] == [] && files[0..] == files;
      for i := 0 to |files|
        invariant repaired + RepairAll(files[i..], r) == RepairAll(files, r)
      {
        assert files[i..][0] == files[i] && files[i..][1..] == files[i + 1..];
        var g := DisableFile(files[i], NamesCdrom, CdromFields);
        DisableKeepsPath(files[i], NamesCdrom, CdromFields);
        g := DisableFile(g, StaleLine(g.path, r), StaleFields(g.path, r));
        assert repaired + ([g] + RepairAll(files[i + 1..], r)) == (repaired + [g]) + RepairAll(files[i + 1..], r);
        repaired := repaired + [g];
      }
      assert repaired + [] == repaired;
    }

    method RepairEverything(r: Release)
      modifies this
      ensures Value() == RepairDir(old(Value()), r)
    {
      hide RepairAll, Repaired;
      before := RepairFiles(before, r);
      if managed.Some? {
        var files := RepairFiles([Source(MANAGED_PATH, true, managed.value)], r);
        OneRepair(Source(MANAGED_PATH, true, managed.value), r);
        managed := Some(files[0].content);
      }
      after := RepairFiles(after, r);
    }

    /** `_remove_redundant_managed_source`. */
    method RemoveRedundant(entries: seq<Entry>, r: Release) returns (removed: bool)
      modifies this`managed
      ensures Value() == DropRedundant(old(Value()), entries, r) && removed == Redundant(old(Value()), entries, r)
    {
      removed := managed.Some? && Contains(managed.value, MARKER)
        && HasBase(OthersOf(entries), r) && HasSecurity(OthersOf(entries), r);
      if removed {
        managed := None;
      }
    }

    /** `_ensure_managed_sources`: only a file of our own is overwritten. */
    method EnsureManaged(
      r: Release, components: seq<string>, keyring: string, base: bool, security: bool) returns (ok: bool)
      modifies this`managed
      ensures ok <==> old(managed).None? || Contains(old(managed).value, "# Managed by infra_tools")
      ensures Value() == if ok then Written(old(Value()), r, components, keyring, base, security) else old(Value())
    {
      hide ManagedText;
      if managed.Some? && !Contains(managed.value, MARKER) {
        return false;
      }
      var text := ManagedText(r, components, keyring, base, security);
      if managed != Some(text) {
        managed := Some(text);
      }
      return true;
    }

    method EnsureDebianPackageSources(r: Release, keyring: Option<string>) returns (result: Result<seq<Entry>, Failure>)
      modifies this
      ensures (Value(), result) == Ensure(old(Value()), r, keyring)
    {
      hide Entries, ManagedText, RepairDir, ComponentsFor, HasBase, HasSecurity, Redundant, IsCdrom, Contains;
      if keyring.None? {
        return Err(NoKeyring);
      }
      var initial := Entries(Value().All());
      if initial.None? {
        return Err(Crash);
      }
      var components := ComponentsForManagedSources(initial.value, r);
      RepairEverything(r);
      var status := Entries(Value().All());
      if status.None? {
        return Err(Crash);
      }
      var removed := RemoveRedundant(status.value, r);
      status := Entries(Value().All());
      if status.None? {
        return Err(Crash);
      }
      if !HasBase(status.value, r) || !HasSecurity(status.value, r) {
        var ok := EnsureManaged(r, components, keyring.value, !HasBase(status.value, r), !HasSecurity(status.value, r));
        if !ok {
          return Err(NotOurs);
        }
        status := Entries(Value().All());
        if status.None? {
          return Err(Crash);
        }
      }
      if exists e <- status.value :: IsCdrom(e.uri) {
        return Err(CdromRemains);
      }
      if !HasBase(status.value, r) || !HasSecurity(status.value, r) {
        return Err(NotConfigured);
      }
      return Ok(status.value);
    }
  }

  lemma OneRepair(f: Source, r: Release)
    ensures RepairAll([f], r) == [Repaired(f, r)]
  {
    hide Repaired;
    assert [f][1..] == [];
  }
}
