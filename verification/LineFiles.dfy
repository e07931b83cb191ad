/** The line files of the config directory: `upsertKeyed` and its users `SetNodeConfig` and
    `PinNode` against the lookups `ConfigNodeIP` and `NodeKey`. A file that is missing or cannot
    be read is `None`, as it is for the code. */
module LineFiles {
  import opened Optional
  import opened Text

  type File = Option<string>

  function Lines(f: File): seq<string> {
    if f.None? then [] else Split(f.value, '\n')
  }

  // ----- replacing the line of one key -----

  ghost predicate HasKey(lines: seq<string>, key: string, keyOf: string -> string) {
    exists i | 0 <= i < |lines| :: keyOf(lines[i]) == key
  }

  /** The first line of the key becomes `line`, later ones go. */
  ghost function Replaced(lines: seq<string>, key: string, line: string, keyOf: string -> string): seq<string> {
    if lines == [] then []
    else
      var front, last := lines[..|lines| - 1], lines[|lines| - 1];
      var out := Replaced(front, key, line, keyOf);
      if keyOf(last) != key then out + [last]
      else if HasKey(front, key, keyOf) then out
      else out + [line]
  }

  ghost function Upserted(lines: seq<string>, key: string, line: string, keyOf: string -> string): seq<string> {
    var out := Replaced(lines, key, line, keyOf);
    if HasKey(lines, key, keyOf) then out else out + [line]
  }

  /** `upsertKeyed` */
  method UpsertKeyed(file: File, key: string, line: string, keyOf: string -> string) returns (content: string)
    ensures content == Join(Upserted(Lines(file), key, line, keyOf), '\n')
  {
    var lines := Lines(file);
    var out := [];
    var replaced := false;
    for i := 0 to |lines|
      invariant out == Replaced(lines[..i], key, line, keyOf)
      invariant replaced <==> HasKey(lines[..i], key, keyOf)
    {
      assert lines[..i + 1] == lines[..i] + [lines[i]];
      HasKeyOneMore(lines[..i], lines[i], key, keyOf);
      if keyOf(lines[i]) == key {
        if !replaced {
          out := out + [line];
          replaced := true;
        }
        continue;
      }
      out := out + [lines[i]];
    }
    assert lines[..|lines|] == lines;
    if !replaced {
      out := out + [line];
    }
    content := Join(out, '\n');
  }

  lemma HasKeyOneMore(front: seq<string>, last: string, key: string, keyOf: string -> string)
    ensures HasKey(front + [last], key, keyOf) <==> HasKey(front, key, keyOf) || keyOf(last) == key
  {
    var more := front + [last];
    assert more[|front|] == last;
    assert forall i | 0 <= i < |front| :: more[i] == front[i];
  }

  // ----- the laws of an upsert -----

  /** The lines of every other key, in order. */
  function Others(lines: seq<string>, key: string, keyOf: string -> string): seq<string> {
    if lines == [] then []
    else
      var out := Others(lines[..|lines| - 1], key, keyOf);
      if keyOf(lines[|lines| - 1]) == key then out else out + [lines[|lines| - 1]]
  }

  function CountKey(lines: seq<string>, key: string, keyOf: string -> string): nat {
    if lines == [] then 0
    else CountKey(lines[..|lines| - 1], key, keyOf) + (if keyOf(lines[|lines| - 1]) == key then 1 else 0)
  }

  lemma Snoc(front: seq<string>, last: string, key: string, line: string, keyOf: string -> string)
    ensures var more := front + [last];
      && CountKey(more, key, keyOf) == CountKey(front, key, keyOf) + (if keyOf(last) == key then 1 else 0)
      && Others(more, key, keyOf)
           == (if keyOf(last) == key then Others(front, key, keyOf) else Others(front, key, keyOf) + [last])
      && Replaced(more, key, line, keyOf) ==
           (if keyOf(last) != key then Replaced(front, key, line, keyOf) + [last]
            else if HasKey(front, key, keyOf) then Replaced(front, key, line, keyOf)
            else Replaced(front, key, line, keyOf) + [line])
  {
    assert (front + [last])[..|front|] == front;
  }

  lemma {:induction false} ReplacedLaws(lines: seq<string>, key: string, line: string, keyOf: string -> string)
    requires keyOf(line) == key
    ensures var out := Replaced(lines, key, line, keyOf);
      && CountKey(out, key, keyOf) == (if HasKey(lines, key, keyOf) then 1 else 0)
      && (HasKey(out, key, keyOf) <==> HasKey(lines, key, keyOf))
      && Others(out, key, keyOf) == Others(lines, key, keyOf)
      && Replaced(out, key, line, keyOf) == out
  {
    if lines != [] {
      var front, last := lines[..|lines| - 1], lines[|lines| - 1];
      ReplacedLaws(front, key, line, keyOf);
      assert lines == front + [last];
      HasKeyOneMore(front, last, key, keyOf);
      var out := Replaced(front, key, line, keyOf);
      var added := if keyOf(last) != key then last else line;
      Snoc(out, added, key, line, keyOf);
      HasKeyOneMore(out, added, key, keyOf);
    }
  }

  /** After an upsert the key has one line, every other line is as it was and where it was, and
      upserting again changes nothing. */
  lemma UpsertLaws(lines: seq<string>, key: string, line: string, keyOf: string -> string)
    requires keyOf(line) == key
    ensures var out := Upserted(lines, key, line, keyOf);
      && CountKey(out, key, keyOf) == 1
      && Others(out, key, keyOf) == Others(lines, key, keyOf)
      && Upserted(out, key, line, keyOf) == out
  {
    ReplacedLaws(lines, key, line, keyOf);
    if !HasKey(lines, key, keyOf) {
      var out := Replaced(lines, key, line, keyOf);
      Snoc(out, line, key, line, keyOf);
      HasKeyOneMore(out, line, key, keyOf);
    }
  }

  // ----- lookups -----

  /** How a reader understands a line: a name and its value, or nothing. */
  type Reader = string -> Option<(string, string)>

  function Find(lines: seq<string>, name: string, read: Reader): Option<string> {
    if lines == [] then None
    else
      var r := read(lines[0]);
      if r.Some? && r.value.0 == name then Some(r.value.1) else Find(lines[1..], name, read)
  }

  /** The local file first, then the system one. */
  function Lookup(local: File, system: File, name: string, read: Reader): string {
    match Find(Lines(local), name, read)
    case Some(v) => v
    case None => match Find(Lines(system), name, read) case Some(v) => v case None => ""
  }

  /** The writer's idea of a line's key agrees with the reader's idea of its name. */
  ghost predicate Agrees(read: Reader, keyOf: string -> string) {
    forall line | read(line).Some? :: read(line).value.0 == keyOf(line)
  }

  lemma {:induction false} FindAppend(a: seq<string>, b: seq<string>, name: string, read: Reader)
    ensures Find(a + b, name, read) == if Find(a, name, read).Some? then Find(a, name, read) else Find(b, name, read)
  {
    if a == [] {
      assert a + b == b;
    } else {
      assert (a + b)[1..] == a[1..] + b;
      FindAppend(a[1..], b, name, read);
    }
  }

  lemma FindOne(line: string, name: string, read: Reader)
    ensures var r := read(line);
      Find([line], name, read) == if r.Some? && r.value.0 == name then Some(r.value.1) else None
  {
    assert [line][1..] == [];
  }

  lemma {:induction false} FindInOthers(
    lines: seq<string>, key: string, keyOf: string -> string, name: string, read: Reader)
    requires Agrees(read, keyOf) && name != key
    ensures Find(Others(lines, key, keyOf), name, read) == Find(lines, name, read)
  {
    if lines != [] {
      var front, last := lines[..|lines| - 1], lines[|lines| - 1];
      FindInOthers(front, key, keyOf, name, read);
      assert lines == front + [last];
      FindAppend(front, [last], name, read);
      FindAppend(Others(front, key, keyOf), [last], name, read);
      FindOne(last, name, read);
    }
  }

  lemma {:induction false} FindReplaced(
    lines: seq<string>, key: string, line: string, keyOf: string -> string, read: Reader)
    requires Agrees(read, keyOf) && read(line).Some? && read(line).value.0 == key
    ensures Find(Replaced(lines, key, line, keyOf), key, read)
         == if HasKey(lines, key, keyOf) then Some(read(line).value.1) else None
  {
    if lines != [] {
      var front, last := lines[..|lines| - 1], lines[|lines| - 1];
      FindReplaced(front, key, line, keyOf, read);
      assert lines == front + [last];
      HasKeyOneMore(front, last, key, keyOf);
      var out := Replaced(front, key, line, keyOf);
      FindAppend(out, [last], key, read);
      FindAppend(out, [line], key, read);
      FindOne(last, key, read);
      FindOne(line, key, read);
    }
  }

  /** A lookup after an upsert: the value written for its name, what was there for any other. */
  lemma FindUpserted(lines: seq<string>, key: string, line: string, keyOf: string -> string, name: string, read: Reader)
    requires Agrees(read, keyOf) && read(line).Some? && read(line).value.0 == key
    ensures Find(Upserted(lines, key, line, keyOf), name, read)
         == if name == key then Some(read(line).value.1) else Find(lines, name, read)
  {
    var out := Upserted(lines, key, line, keyOf);
    if name == key {
      FindReplaced(lines, key, line, keyOf, read);
      FindAppend(Replaced(lines, key, line, keyOf), [line], key, read);
      FindOne(line, key, read);
    } else {
      UpsertLaws(lines, key, line, keyOf);
      FindInOthers(out, key, keyOf, name, read);
      FindInOthers(lines, key, keyOf, name, read);
    }
  }

  lemma {:induction false} ReplacedFree(lines: seq<string>, key: string, line: string, keyOf: string -> string)
    requires AllFree(lines, '\n') && Free(line, '\n')
    ensures AllFree(Replaced(lines, key, line, keyOf), '\n')
  {
    if lines != [] {
      var front := lines[..|lines| - 1];
      assert forall i | 0 <= i < |front| :: front[i] == lines[i];
      assert Free(lines[|lines| - 1], '\n');
      ReplacedFree(front, key, line, keyOf);
    }
  }

  /** Reading the rewritten file gives back the lines that were written. */
  lemma UpsertRoundTrip(file: File, key: string, line: string, keyOf: string -> string)
    requires Free(line, '\n') && keyOf(line) == key
    ensures var out := Upserted(Lines(file), key, line, keyOf); Lines(Some(Join(out, '\n'))) == out
  {
    var lines := Lines(file);
    if file.Some? {
      SplitPartsFree(file.value, '\n');
    }
    ReplacedFree(lines, key, line, keyOf);
    UpsertLaws(lines, key, line, keyOf);
    SplitOfJoin(Upserted(lines, key, line, keyOf), '\n');
  }

  // ----- any line, even one with newlines in it -----

  /** The lines before the first one of the key, and the other lines behind it. */
  ghost function Front(lines: seq<string>, key: string, keyOf: string -> string): seq<string> {
    if HasKey(lines, key, keyOf) then Front(lines[..|lines| - 1], key, keyOf) else lines
  }

  ghost function Back(lines: seq<string>, key: string, keyOf: string -> string): seq<string> {
    if !HasKey(lines, key, keyOf) then []
    else
      var back, last := Back(lines[..|lines| - 1], key, keyOf), lines[|lines| - 1];
      if keyOf(last) == key then back else back + [last]
  }

  lemma {:induction false} FrontAndBack(lines: seq<string>, key: string, line: string, keyOf: string -> string)
    ensures Others(lines, key, keyOf) == Front(lines, key, keyOf) + Back(lines, key, keyOf)
    ensures Upserted(lines, key, line, keyOf) == Front(lines, key, keyOf) + ([line] + Back(lines, key, keyOf))
  {
    if HasKey(lines, key, keyOf) {
      var front, last := lines[..|lines| - 1], lines[|lines| - 1];
      assert lines == front + [last];
      HasKeyOneMore(front, last, key, keyOf);
      FrontAndBack(front, key, line, keyOf);
      Snoc(front, last, key, line, keyOf);
    } else {
      NoKeyNothingReplaced(lines, key, line, keyOf);
    }
  }

  lemma {:induction false} NoKeyNothingReplaced(lines: seq<string>, key: string, line: string, keyOf: string -> string)
    requires !HasKey(lines, key, keyOf)
    ensures Replaced(lines, key, line, keyOf) == lines && Others(lines, key, keyOf) == lines
  {
    if lines != [] {
      var front, last := lines[..|lines| - 1], lines[|lines| - 1];
      assert lines == front + [last];
      HasKeyOneMore(front, last, key, keyOf);
      NoKeyNothingReplaced(front, key, line, keyOf);
    }
  }

  lemma {:induction false} FrontAndBackFree(lines: seq<string>, key: string, keyOf: string -> string)
    requires AllFree(lines, '\n')
    ensures AllFree(Front(lines, key, keyOf), '\n') && AllFree(Back(lines, key, keyOf), '\n')
  {
    if HasKey(lines, key, keyOf) {
      var front := lines[..|lines| - 1];
      assert forall i | 0 <= i < |front| :: front[i] == lines[i];
      assert Free(lines[|lines| - 1], '\n');
      FrontAndBackFree(front, key, keyOf);
    }
  }

  /** The lines of the rewritten file, whatever is written: a newline in it starts a line of its own. */
  lemma WrittenLines(file: File, key: string, line: string, keyOf: string -> string)
    ensures var lines := Lines(file);
      Lines(Some(Join(Upserted(lines, key, line, keyOf), '\n')))
        == Front(lines, key, keyOf) + (Split(line, '\n') + Back(lines, key, keyOf))
  {
    var lines := Lines(file);
    if file.Some? {
      SplitPartsFree(file.value, '\n');
    }
    FrontAndBack(lines, key, line, keyOf);
    FrontAndBackFree(lines, key, keyOf);
    SplitOfJoinAround(Front(lines, key, keyOf), line, Back(lines, key, keyOf), '\n');
  }

  lemma {:induction false} FrontAndBackLackKey(lines: seq<string>, key: string, keyOf: string -> string)
    ensures !HasKey(Front(lines, key, keyOf), key, keyOf) && !HasKey(Back(lines, key, keyOf), key, keyOf)
  {
    if HasKey(lines, key, keyOf) {
      var front, last := lines[..|lines| - 1], lines[|lines| - 1];
      FrontAndBackLackKey(front, key, keyOf);
      HasKeyOneMore(Back(front, key, keyOf), last, key, keyOf);
    }
  }

  function Or(a: Option<string>, b: Option<string>): Option<string> {
    if a.Some? then a else b
  }

  /** What a lookup finds after any upsert: first what stood before the place of the key, then what the
      written text says, then what stands behind it. */
  lemma FindWritten(file: File, key: string, line: string, keyOf: string -> string, name: string, read: Reader)
    ensures var lines := Lines(file);
      Find(Lines(Some(Join(Upserted(lines, key, line, keyOf), '\n'))), name, read)
        == Or(Find(Front(lines, key, keyOf), name, read),
              Or(Find(Split(line, '\n'), name, read), Find(Back(lines, key, keyOf), name, read)))
  {
    var lines := Lines(file);
    var front, text, back := Front(lines, key, keyOf), Split(line, '\n'), Back(lines, key, keyOf);
    WrittenLines(file, key, line, keyOf);
    FindAppend(front, text + back, name, read);
    FindAppend(text, back, name, read);
  }

  /** Another name is found as before exactly when a line in front has it, or the written text says
      nothing of it, or the text says what the lines behind it said. */
  lemma OtherNameIff(file: File, key: string, line: string, keyOf: string -> string, name: string, read: Reader)
    requires Agrees(read, keyOf) && name != key
    ensures var lines := Lines(file);
      var said := Find(Split(line, '\n'), name, read);
      var after := Find(Lines(Some(Join(Upserted(lines, key, line, keyOf), '\n'))), name, read);
      after == Find(lines, name, read) <==>
        Find(Front(lines, key, keyOf), name, read).Some? || said.None? || said
             == Find(Back(lines, key, keyOf), name, read)
  {
    var lines := Lines(file);
    FindWritten(file, key, line, keyOf, name, read);
    FrontAndBack(lines, key, line, keyOf);
    FindInOthers(lines, key, keyOf, name, read);
    FindAppend(Front(lines, key, keyOf), Back(lines, key, keyOf), name, read);
  }

  /** What a reader can find at all: a line that reads so. */
  lemma {:induction false} FoundInALine(lines: seq<string>, name: string, read: Reader)
    requires Find(lines, name, read).Some?
    ensures exists i | 0 <= i < |lines| :: read(lines[i]) == Some((name, Find(lines, name, read).value))
  {
    if !(read(lines[0]).Some? && read(lines[0]).value.0 == name) {
      FoundInALine(lines[1..], name, read);
      var i :| 0 <= i < |lines| - 1 && read(lines[1..][i]) == Some((name, Find(lines[1..], name, read).value));
      assert read(lines[i + 1]) == Some((name, Find(lines, name, read).value));
    } else {
      assert read(lines[0]) == Some((name, Find(lines, name, read).value));
    }
  }

  lemma NotFoundWithoutKey(lines: seq<string>, key: string, keyOf: string -> string, read: Reader)
    requires Agrees(read, keyOf) && !HasKey(lines, key, keyOf)
    ensures Find(lines, key, read) == None
  {
    if Find(lines, key, read).Some? {
      FoundInALine(lines, key, read);
    }
  }
}
