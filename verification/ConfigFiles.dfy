/** The two name files: `config` with its `name=ip` lines and `node_keys` with its `name key`
    lines, as maps from node names. */
module ConfigFiles {
  import opened Optional
  import opened Text
  import opened LineFiles

  function Normal(name: string): string {
    Trim(ToLower(name))
  }

  lemma NormalShape(name: string)
    ensures Trimmed(Normal(name)) && IsLower(Normal(name)) && |Normal(name)| <= |name|
  {
    var k := TrimShape(ToLower(name));
    LowerIsLower(name);
    assert forall i | 0 <= i < |Normal(name)| :: Normal(name)[i] == ToLower(name)[k + i];
  }

  lemma NormalOfNormal(n: string)
    requires Trimmed(n) && IsLower(n)
    ensures Normal(n) == n
  {
    LowerOfLower(n);
    TrimOfTrimmed(n);
  }

  // ----- config: name=ip -----

  /** The key `SetNodeConfig` sees in a line. */
  function ConfigKey(line: string): string {
    var i := IndexOf(line, '=');
    if i >= 0 then Normal(line[..i]) else ""
  }

  /** What `ConfigNodeIP` reads from a line. */
  function ReadConfig(line: string): Option<(string, string)> {
    var text := Trim(line);
    var i := IndexOf(text, '=');
    if text == "" || text[0] == '#' || i < 0 then None
    else Some((Normal(text[..i]), Trim(text[i + 1..])))
  }

  function ConfigNodeIP(local: File, system: File, name: string): string {
    var n := Normal(name);
    if n == "" then "" else Lookup(local, system, n, ReadConfig)
  }

  /** The writer takes the key from the raw line, the reader from the trimmed one. */
  lemma ConfigKeysAgree(line: string)
    requires ReadConfig(line).Some?
    ensures ReadConfig(line).value.0 == ConfigKey(line)
  {
    var text := Trim(line);
    var i := IndexOf(text, '=');
    var k := TrimShape(line);
    assert line[k + i] == text[i] == '=';
    assert line[..k + i] == line[..k] + text[..i];
    assert Free(line[..k], '=');
    IndexIs(line, '=', k + i);
    LowerOfConcat(line[..k], text[..i]);
    BlankKeepsLower(line[..k]);
    TrimLeftOfBlank(ToLower(line[..k]), ToLower(text[..i]));
  }

  lemma ConfigAgrees()
    ensures Agrees(ReadConfig, ConfigKey)
  {
    forall line | ReadConfig(line).Some?
      ensures ReadConfig(line).value.0 == ConfigKey(line)
    {
      ConfigKeysAgree(line);
    }
  }

  /** A node name the config file can hold. */
  predicate NameOk(n: string) {
    n != "" && Free(n, '=') && Free(n, '\n') && n[0] != '#'
  }

  function ConfigLine(n: string, ip: string): string {
    n + "=" + Trim(ip)
  }

  lemma ConfigLineReads(name: string, ip: string)
    requires NameOk(Normal(name))
    ensures ReadConfig(ConfigLine(Normal(name), ip)) == Some((Normal(name), Trim(ip)))
  {
    var n, line := Normal(name), ConfigLine(Normal(name), ip);
    NormalShape(name);
    NormalOfNormal(n);
    var _ := TrimShape(ip);
    assert line[|line| - 1] == if Trim(ip) == "" then '=' else Trim(ip)[|Trim(ip)| - 1];
    TrimOfTrimmed(line);
    assert line[..|n|] == n && line[|n| + 1..] == Trim(ip);
    IndexIs(line, '=', |n|);
    TrimOfTrimmed(Trim(ip));
  }

  // ----- node_keys: name key -----

  function PinKey(line: string): string {
    var fields := Fields(line);
    if fields == [] then "" else ToLower(fields[0])
  }

  function ReadPin(line: string): Option<(string, string)> {
    var fields := Fields(line);
    if |fields| >= 2 then Some((ToLower(fields[0]), fields[1])) else None
  }

  function NodeKey(local: File, system: File, name: string): string {
    var n := Normal(name);
    if n == "" then "" else Lookup(local, system, n, ReadPin)
  }

  lemma PinLineReads(name: string, pub: string)
    requires Normal(name) != "" && SpaceFree(Normal(name)) && Trim(pub) != "" && SpaceFree(Trim(pub))
    ensures ReadPin(Normal(name) + " " + Trim(pub)) == Some((Normal(name), Trim(pub)))
    ensures PinKey(Normal(name) + " " + Trim(pub)) == Normal(name)
  {
    var n := Normal(name);
    NormalShape(name);
    LowerOfLower(n);
    assert n + " " + Trim(pub) == n + (" " + Trim(pub));
    FieldsOfWord(n, " " + Trim(pub));
    FieldsOfSpace(' ', Trim(pub));
    assert [' '] + Trim(pub) == " " + Trim(pub);
    FieldsOfWord(Trim(pub), "");
    assert Trim(pub) + "" == Trim(pub);
  }

  // ----- the writers -----

  class ConfigDir {
    var config: File
    var nodeKeys: File

    constructor (config: File, nodeKeys: File)
      ensures this.config == config && this.nodeKeys == nodeKeys
    {
      this.config, this.nodeKeys := config, nodeKeys;
    }

    /** `SetNodeConfig`; false is the error for an empty name. */
    method SetNodeConfig(name: string, ip: string) returns (ok: bool)
      modifies this`config
      ensures ok <==> Normal(name) != ""
      ensures !ok ==> config == old(config)
      ensures ok ==>
        config == Some(Join(Upserted(Lines(old(config)), Normal(name), ConfigLine(Normal(name), ip), ConfigKey), '\n'))
    {
      var n := Normal(name);
      if n == "" {
        return false;
      }
      var content := UpsertKeyed(config, n, ConfigLine(n, ip), ConfigKey);
      config := Some(content);
      return true;
    }

    /** `PinNode` */
    method PinNode(name: string, pub: string) returns (ok: bool)
      modifies this`nodeKeys
      ensures ok <==> Normal(name) != ""
      ensures !ok ==> nodeKeys == old(nodeKeys)
      ensures ok ==>
        var line := Normal(name) + " " + Trim(pub);
        nodeKeys == Some(Join(Upserted(Lines(old(nodeKeys)), Normal(name), line, PinKey), '\n'))
    {
      var n := Normal(name);
      if n == "" {
        return false;
      }
      var content := UpsertKeyed(nodeKeys, n, n + " " + Trim(pub), PinKey);
      nodeKeys := Some(content);
      return true;
    }
  }

  // ----- they act as map updates -----

  /** After `SetNodeConfig(name, ip)` the name has one line and resolves to `ip`, every other
      name resolves as before, and setting it again leaves the file identical. */
  lemma SetNodeConfigIsUpdate(before: File, system: File, name: string, ip: string, other: string)
    requires NameOk(Normal(name)) && Free(Trim(ip), '\n')
    ensures var n, line := Normal(name), ConfigLine(Normal(name), ip);
      var after := Some(Join(Upserted(Lines(before), n, line, ConfigKey), '\n'));
      && ConfigNodeIP(after, system, name) == Trim(ip)
      && (Normal(other) != n ==> ConfigNodeIP(after, system, other) == ConfigNodeIP(before, system, other))
      && CountKey(Lines(after), n, ConfigKey) == 1
      && Join(Upserted(Lines(after), n, line, ConfigKey), '\n') == after.value
  {
    var n, line := Normal(name), ConfigLine(Normal(name), ip);
    ConfigAgrees();
    ConfigLineReads(name, ip);
    ConfigKeysAgree(line);
    UpsertLaws(Lines(before), n, line, ConfigKey);
    UpsertRoundTrip(before, n, line, ConfigKey);
    FindUpserted(Lines(before), n, line, ConfigKey, n, ReadConfig);
    FindUpserted(Lines(before), n, line, ConfigKey, Normal(other), ReadConfig);
  }

  lemma PinLineIsFree(name: string, pub: string)
    requires SpaceFree(name) && SpaceFree(pub)
    ensures Free(name + " " + pub, '\n')
  {
    assert IsSpace('\n');
    assert Free(name, '\n') && Free(pub, '\n');
  }

  lemma PinNodeIsUpdate(before: File, system: File, name: string, pub: string, other: string)
    requires Normal(name) != "" && SpaceFree(Normal(name)) && Trim(pub) != "" && SpaceFree(Trim(pub))
    ensures var n, line := Normal(name), Normal(name) + " " + Trim(pub);
      var after := Some(Join(Upserted(Lines(before), n, line, PinKey), '\n'));
      && NodeKey(after, system, name) == Trim(pub)
      && (Normal(other) != n ==> NodeKey(after, system, other) == NodeKey(before, system, other))
      && CountKey(Lines(after), n, PinKey) == 1
      && Join(Upserted(Lines(after), n, line, PinKey), '\n') == after.value
  {
    var n, line := Normal(name), Normal(name) + " " + Trim(pub);
    assert Agrees(ReadPin, PinKey);
    PinLineReads(name, pub);
    PinLineIsFree(Normal(name), Trim(pub));
    UpsertLaws(Lines(before), n, line, PinKey);
    UpsertRoundTrip(before, n, line, PinKey);
    FindUpserted(Lines(before), n, line, PinKey, n, ReadPin);
    FindUpserted(Lines(before), n, line, PinKey, Normal(other), ReadPin);
  }

  // ----- names and values that are not read back -----

  lemma TrimKeepsFree(s: string, c: char)
    requires Free(s, c)
    ensures Free(Trim(s), c)
  {
    var k := TrimShape(s);
    assert forall j | 0 <= j < |Trim(s)| :: Trim(s)[j] == s[k + j];
  }

  lemma NormalKeepsFree(s: string, c: char)
    requires Free(s, c) && forall x :: Lower(x) == c ==> x == c
    ensures Free(Normal(s), c)
  {
    assert forall j | 0 <= j < |s| :: ToLower(s)[j] == Lower(s[j]);
    TrimKeepsFree(ToLower(s), c);
  }

  lemma NormalStart(s: string)
    requires s != "" && !IsSpace(s[0])
    ensures Normal(s) != "" && Normal(s)[0] == Lower(s[0])
  {
    var t := ToLower(s);
    LowerSpace(s[0]);
    assert TrimLeft(t) == t;
    TrimRightShape(t);
    assert !Blank(t);
    assert t[0..] == t;
  }

  /** A newline-free line reads as a name that the config file can hold, and a newline-free value. */
  lemma ReadConfigIsOk(line: string)
    requires Free(line, '\n') && ReadConfig(line).Some?
    ensures var r := ReadConfig(line).value; (r.0 == "" || NameOk(r.0)) && Free(r.1, '\n')
  {
    var text := Trim(line);
    var i := IndexOf(text, '=');
    TrimKeepsFree(line, '\n');
    TrimKeepsFree(text[i + 1..], '\n');
    var _ := TrimShape(line);
    NameBeforeEquals(text, i);
  }

  lemma NameBeforeEquals(text: string, i: nat)
    requires i < |text| && Free(text[..i], '=') && Free(text, '\n') && !IsSpace(text[0]) && text[0] != '#'
    ensures Normal(text[..i]) == "" || NameOk(Normal(text[..i]))
  {
    LowerSpace(text[0]);
    NormalKeepsFree(text[..i], '=');
    NormalKeepsFree(text[..i], '\n');
    if i > 0 {
      NormalStart(text[..i]);
    } else {
      assert ToLower(text[..i]) == "";
    }
  }

  lemma LowerSpace(c: char)
    ensures IsSpace(Lower(c)) <==> IsSpace(c)
    ensures Lower(c) == '#' <==> c == '#'
  {
  }

  /** No config file resolves a name that it cannot hold. */
  lemma UnreadableName(local: File, system: File, name: string)
    requires !NameOk(Normal(name))
    ensures ConfigNodeIP(local, system, name) == ""
  {
    if Normal(name) != "" {
      NeverFound(local, Normal(name));
      NeverFound(system, Normal(name));
    }
  }

  lemma NeverFound(file: File, n: string)
    requires n != "" && !NameOk(n)
    ensures Find(Lines(file), n, ReadConfig) == None
  {
    if Find(Lines(file), n, ReadConfig).Some? {
      FoundIsOk(file, n);
    }
  }

  /** What is found is found in a newline-free line. */
  lemma FoundIsOk(file: File, n: string)
    requires n != "" && Find(Lines(file), n, ReadConfig).Some?
    ensures NameOk(n) && Free(Find(Lines(file), n, ReadConfig).value, '\n')
  {
    FoundInALine(Lines(file), n, ReadConfig);
    var i :| 0 <= i < |Lines(file)| && ReadConfig(Lines(file)[i]) == Some((n, Find(Lines(file), n, ReadConfig).value));
    SplitPartsFree(file.value, '\n');
    assert Free(Lines(file)[i], '\n');
    ReadConfigIsOk(Lines(file)[i]);
  }

  /** The address comes back exactly when the name is one that the file can hold and the address has no
      newline, or there is no address to come back. */
  lemma SetNodeConfigIff(before: File, system: File, name: string, ip: string)
    requires Normal(name) != ""
    ensures var n := Normal(name);
      var after := Some(Join(Upserted(Lines(before), n, ConfigLine(n, ip), ConfigKey), '\n'));
      ConfigNodeIP(after, system, name) == Trim(ip) <==>
        (NameOk(Normal(name)) && Free(Trim(ip), '\n')) || Trim(ip) == ""
  {
    var n := Normal(name);
    var after := Some(Join(Upserted(Lines(before), n, ConfigLine(n, ip), ConfigKey), '\n'));
    if !NameOk(n) {
      UnreadableName(after, system, name);
    } else if Free(Trim(ip), '\n') {
      SetNodeConfigIsUpdate(before, system, name, ip, name);
    } else {
      LookupIsFree(after, system, n);
    }
  }

  lemma LookupIsFree(local: File, system: File, n: string)
    requires n != ""
    ensures Free(Lookup(local, system, n, ReadConfig), '\n')
  {
    if Find(Lines(local), n, ReadConfig).Some? {
      FoundIsOk(local, n);
    } else if Find(Lines(system), n, ReadConfig).Some? {
      FoundIsOk(system, n);
    }
  }

  /** Another name keeps its local line's address exactly when a line in front of the place of the
      written name has it, or the written text, read line by line, says nothing of it, or says what the
      lines behind said. */
  lemma SetNodeConfigOthersIff(before: File, name: string, ip: string, other: string)
    requires Normal(other) != Normal(name)
    ensures var n, o, lines := Normal(name), Normal(other), Lines(before);
      var said := Find(Split(ConfigLine(n, ip), '\n'), o, ReadConfig);
      var after := Some(Join(Upserted(lines, n, ConfigLine(n, ip), ConfigKey), '\n'));
      Find(Lines(after), o, ReadConfig) == Find(lines, o, ReadConfig) <==>
        Find(Front(lines, n, ConfigKey), o, ReadConfig).Some? || said.None?
        || said == Find(Back(lines, n, ConfigKey), o, ReadConfig)
  {
    ConfigAgrees();
    OtherNameIff(before, Normal(name), ConfigLine(Normal(name), ip), ConfigKey, Normal(other), ReadConfig);
  }

  /** So an address with a newline and a line for another name in it gives that name an address. */
  lemma NewlineInAddressSetsAnother(before: File, n: string, first: string, other: string, value: string, ip: string)
    requires NameOk(n) && Normal(n) == n && Normal(other) == other && NameOk(other) && other != n
    requires Free(first, '\n') && Free(Trim(value), '\n') && Trim(ip) == first + ['\n'] + ConfigLine(other, value)
    ensures var lines := Lines(before);
      var after := Some(Join(Upserted(lines, n, ConfigLine(n, ip), ConfigKey), '\n'));
      Find(Lines(after), other, ReadConfig)
        == Or(Find(Front(lines, n, ConfigKey), other, ReadConfig), Some(Trim(value)))
  {
    TwoLines(n, first, other, value, ip);
    var one, two := n + "=" + first, ConfigLine(other, value);
    FindWritten(before, n, ConfigLine(n, ip), ConfigKey, other, ReadConfig);
    assert [one, two] == [one] + [two];
    FindAppend([one], [two], other, ReadConfig);
    FindOne(one, other, ReadConfig);
    FindOne(two, other, ReadConfig);
    ConfigLineReads(other, value);
    ReadsOwnName(n, first);
  }

  lemma TwoLines(n: string, first: string, other: string, value: string, ip: string)
    requires NameOk(n) && NameOk(other) && Free(first, '\n') && Free(Trim(value), '\n')
    requires Trim(ip) == first + ['\n'] + ConfigLine(other, value)
    ensures Split(ConfigLine(n, ip), '\n') == [n + "=" + first, ConfigLine(other, value)]
  {
    var one, two := n + "=" + first, ConfigLine(other, value);
    assert ConfigLine(n, ip) == one + ['\n'] + two;
    SplitAround(one, '\n', two);
    SplitFree(one, '\n');
    SplitFree(two, '\n');
  }

  lemma ReadsOwnName(n: string, rest: string)
    requires Normal(n) == n && Free(n, '=')
    ensures var r := ReadConfig(n + "=" + rest); r.Some? ==> r.value.0 == n
  {
    var line := n + "=" + rest;
    if ReadConfig(line).Some? {
      ConfigKeysAgree(line);
      assert line[..|n|] == n;
      IndexIs(line, '=', |n|);
    }
  }

  /** Pins have space-free names and values. */
  lemma PinFoundIsOk(file: File, n: string)
    requires Find(Lines(file), n, ReadPin).Some?
    ensures SpaceFree(n) && SpaceFree(Find(Lines(file), n, ReadPin).value)
    ensures Find(Lines(file), n, ReadPin).value != ""
  {
    FoundInALine(Lines(file), n, ReadPin);
    var i :| 0 <= i < |Lines(file)| && ReadPin(Lines(file)[i]) == Some((n, Find(Lines(file), n, ReadPin).value));
    var line := Lines(file)[i];
    FirstField(line);
    SpaceFreeLower(Fields(line)[0]);
    FieldIsWord(line, 1);
  }

  lemma SpaceFreeLower(s: string)
    requires SpaceFree(s)
    ensures SpaceFree(ToLower(s))
  {
  }

  /** The key comes back exactly when neither it nor the name has white space inside and there is one;
      with no key to come back, exactly when the system file has none either. */
  lemma PinNodeIff(before: File, system: File, name: string, pub: string)
    requires Normal(name) != ""
    ensures var n, p := Normal(name), Trim(pub);
      var after := Some(Join(Upserted(Lines(before), n, n + " " + p, PinKey), '\n'));
      NodeKey(after, system, name) == p <==>
        if p == "" then NodeKey(None, system, name) == "" else SpaceFree(n) && SpaceFree(p)
  {
    var n, p := Normal(name), Trim(pub);
    var after := Some(Join(Upserted(Lines(before), n, n + " " + p, PinKey), '\n'));
    if p == "" {
      assert n + " " + p == n + " ";
      EmptyPin(before, system, n);
    } else if SpaceFree(n) && SpaceFree(p) {
      PinNodeIsUpdate(before, system, name, pub, name);
    } else {
      PinLookup(after, system, n);
    }
  }

  lemma EmptyPin(before: File, system: File, n: string)
    requires n != ""
    ensures var after := Some(Join(Upserted(Lines(before), n, n + " ", PinKey), '\n'));
      Lookup(after, system, n, ReadPin) == "" <==> Lookup(None, system, n, ReadPin) == ""
  {
    var line, lines := n + " ", Lines(before);
    var after := Some(Join(Upserted(lines, n, line, PinKey), '\n'));
    if SpaceFree(n) {
      FindWritten(before, n, line, PinKey, n, ReadPin);
      FrontAndBackLackKey(lines, n, PinKey);
      NotFoundWithoutKey(Front(lines, n, PinKey), n, PinKey, ReadPin);
      NotFoundWithoutKey(Back(lines, n, PinKey), n, PinKey, ReadPin);
      EmptyPinReadsNothing(n);
    } else {
      PinLookup(after, system, n);
      PinLookup(None, system, n);
    }
  }

  lemma EmptyPinReadsNothing(n: string)
    requires n != "" && SpaceFree(n)
    ensures Find(Split(n + " ", '\n'), n, ReadPin) == None
  {
    assert IsSpace('\n') && Free(n + " ", '\n');
    SplitFree(n + " ", '\n');
    FieldsOfWord(n, " ");
    assert " "[1..] == "";
    FindOne(n + " ", n, ReadPin);
  }

  lemma PinLookup(local: File, system: File, n: string)
    ensures var v := Lookup(local, system, n, ReadPin); v == "" || (SpaceFree(n) && SpaceFree(v))
  {
    if Find(Lines(local), n, ReadPin).Some? {
      PinFoundIsOk(local, n);
    } else if Find(Lines(system), n, ReadPin).Some? {
      PinFoundIsOk(system, n);
    }
  }

  /** And another name keeps its pin under the same condition as its address. */
  lemma PinNodeOthersIff(before: File, name: string, pub: string, other: string)
    requires Normal(other) != Normal(name)
    ensures var n, o, lines := Normal(name), Normal(other), Lines(before);
      var line := n + " " + Trim(pub);
      var said := Find(Split(line, '\n'), o, ReadPin);
      var after := Some(Join(Upserted(lines, n, line, PinKey), '\n'));
      Find(Lines(after), o, ReadPin) == Find(lines, o, ReadPin) <==>
        Find(Front(lines, n, PinKey), o, ReadPin).Some? || said.None?
        || said == Find(Back(lines, n, PinKey), o, ReadPin)
  {
    assert Agrees(ReadPin, PinKey);
    OtherNameIff(before, Normal(name), Normal(name) + " " + Trim(pub), PinKey, Normal(other), ReadPin);
  }

  // ----- the two files, and the spelling of names -----

  /** A name that the local file lacks is looked up in the system file, in the same way. */
  lemma SystemFileIsRead(file: File, local: File, name: string)
    ensures ConfigNodeIP(None, file, name) == ConfigNodeIP(file, None, name)
    ensures NodeKey(None, file, name) == NodeKey(file, None, name)
    ensures Find(Lines(local), Normal(name), ReadConfig).None? ==>
      ConfigNodeIP(local, file, name) == ConfigNodeIP(file, None, name)
    ensures Find(Lines(local), Normal(name), ReadPin).None? ==>
      NodeKey(local, file, name) == NodeKey(file, None, name)
  {
  }

  /** Case, and white space around a name, make no difference to either file. */
  lemma SpellingDoesNotMatter(local: File, system: File, a: string, b: string)
    requires Trim(ToLower(a)) == Trim(ToLower(b))
    ensures ConfigNodeIP(local, system, a) == ConfigNodeIP(local, system, b)
    ensures NodeKey(local, system, a) == NodeKey(local, system, b)
    ensures ConfigLine(Normal(a), "") == Trim(ToLower(a)) + "="
  {
  }
}
