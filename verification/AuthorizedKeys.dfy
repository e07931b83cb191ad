/** The `authorized_keys` file: `AuthorizeKey` appends a line to it, `RevokeKey` filters lines out
    of it, and `KeyCapabilities` reads it, with the system-wide file after it. */
module AuthorizedKeys {
  import opened Optional
  import opened Text
  import opened LineFiles

  // ----- reading -----

  /** The answer of `KeyCapabilities`; a nil map there means unrestricted. */
  datatype Grant = Denied | Unrestricted | Restricted(caps: set<string>)

  /** The lower-cased, non-empty entries of a comma-separated list. */
  function CapSet(items: seq<string>): set<string> {
    if items == [] then {}
    else
      var c := ToLower(Trim(items[0]));
      CapSet(items[1..]) + (if c == "" then {} else {c})
  }

  function GrantOf(caps: string): Grant {
    var allowed := CapSet(Split(caps, ','));
    if "all" in allowed || allowed == {} then Unrestricted else Restricted(allowed)
  }

  /** The first caps= field decides; without one everything is granted. */
  function FieldsGrant(fields: seq<string>): Grant {
    if fields == [] then Unrestricted
    else if "caps=" <= fields[0] then GrantOf(fields[0][5..])
    else FieldsGrant(fields[1..])
  }

  predicate Concerns(line: string, pub: string) {
    var text := Trim(line);
    var fields := Fields(text);
    text != "" && text[0] != '#' && fields != [] && fields[0] == pub
  }

  /** The grant of the first line of the key. */
  function FileGrant(lines: seq<string>, pub: string): Grant {
    if lines == [] then Denied
    else if Concerns(lines[0], pub) then FieldsGrant(Fields(Trim(lines[0]))[1..])
    else FileGrant(lines[1..], pub)
  }

  function KeyCapabilities(local: File, system: File, pub: string): Grant {
    var p := Trim(pub);
    if p == "" then Denied
    else
      var g := FileGrant(Lines(local), p);
      if g.Denied? then FileGrant(Lines(system), p) else g
  }

  // ----- writing -----

  /** The line `AuthorizeKey` appends. */
  function KeyLine(pub: string, caps: string, comment: string): string {
    pub + (if Trim(caps) == "" then "" else " caps=" + Trim(caps))
        + (if Trim(comment) == "" then "" else " " + Trim(comment))
  }

  predicate StartsWithKey(line: string, pub: string) {
    Fields(line) != [] && Fields(line)[0] == pub
  }

  /** The lines whose first field is not the key. */
  function Without(lines: seq<string>, pub: string): seq<string> {
    if lines == [] then []
    else
      var kept := Without(lines[..|lines| - 1], pub);
      if StartsWithKey(lines[|lines| - 1], pub) then kept else kept + [lines[|lines| - 1]]
  }

  lemma WithoutOneMore(lines: seq<string>, i: nat, pub: string)
    requires i < |lines|
    ensures Without(lines[..i + 1], pub) ==
      Without(lines[..i], pub) + (if StartsWithKey(lines[i], pub) then [] else [lines[i]])
  {
    assert lines[..i + 1][..i] == lines[..i];
  }

  function Revoked(local: File, pub: string): File {
    var kept := Without(Lines(local), Trim(pub));
    if kept == Lines(local) then local else Some(Join(kept, '\n'))
  }

  class KeyFile {
    var local: File
    const system: File

    constructor (local: File, system: File)
      ensures this.local == local && this.system == system
    {
      this.local, this.system := local, system;
    }

    /** `AuthorizeKey`; false is the error for an empty key. A key that is known stays as it is. */
    method AuthorizeKey(pub: string, caps: string, comment: string) returns (ok: bool)
      modifies this
      ensures ok <==> Trim(pub) != ""
      ensures local ==
        if Trim(pub) == "" || !KeyCapabilities(old(local), system, pub).Denied? then old(local)
        else Appended(old(local), pub, caps, comment)
    {
      var p := Trim(pub);
      if p == "" {
        return false;
      }
      if !KeyCapabilities(local, system, pub).Denied? {
        return true;
      }
      var line := p;
      if Trim(caps) != "" {
        line := line + " caps=" + Trim(caps);
      }
      if Trim(comment) != "" {
        line := line + " " + Trim(comment);
      }
      KeyLineIs(p, caps, comment, line);
      local := Some(Data(local) + line + "\n");
      return true;
    }

    /** `RevokeKey` */
    method RevokeKey(pub: string) returns (removed: bool)
      modifies this
      ensures removed <==> Without(Lines(old(local)), Trim(pub)) != Lines(old(local))
      ensures local == Revoked(old(local), pub)
    {
      var lines := Lines(local);
      var kept;
      kept, removed := Keep(lines, Trim(pub));
      if removed {
        local := Some(Join(kept, '\n'));
      }
    }
  }

  method Keep(lines: seq<string>, pub: string) returns (kept: seq<string>, removed: bool)
    ensures kept == Without(lines, pub)
    ensures removed <==> kept != lines
  {
    kept, removed := [], false;
    for i := 0 to |lines|
      invariant kept == Without(lines[..i], pub) && |kept| <= i
      invariant removed <==> |kept| < i
      invariant !removed ==> kept == lines[..i]
    {
      WithoutOneMore(lines, i, pub);
      if StartsWithKey(lines[i], pub) {
        removed := true;
        continue;
      }
      kept := kept + [lines[i]];
    }
    assert lines[..|lines|] == lines;
  }

  lemma KeyLineIs(pub: string, caps: string, comment: string, line: string)
    requires var withCaps := if Trim(caps) == "" then pub else pub + " caps=" + Trim(caps);
      line == if Trim(comment) == "" then withCaps else withCaps + " " + Trim(comment)
    ensures line == KeyLine(pub, caps, comment)
  {
  }

  // ----- what reading depends on -----

  predicate KeyOk(pub: string) {
    pub != "" && SpaceFree(pub) && pub[0] != '#'
  }

  lemma ConcernsWhatItStartsWith(line: string, pub: string)
    ensures Concerns(line, pub) <==> KeyOk(pub) && StartsWithKey(line, pub)
  {
    var text := Trim(line);
    FieldsOfTrim(line);
    var _ := TrimShape(line);
    if Fields(text) != [] {
      FirstField(text);
    }
  }

  lemma {:induction false} NeverDenied(fields: seq<string>)
    ensures !FieldsGrant(fields).Denied?
  {
    if fields != [] {
      NeverDenied(fields[1..]);
    }
  }

  /** What one line grants: the reader looks at nothing but its fields. */
  lemma GrantOfOne(line: string, pub: string)
    ensures FileGrant([line], pub)
         == if KeyOk(pub) && StartsWithKey(line, pub) then FieldsGrant(Fields(line)[1..]) else Denied
  {
    assert [line][1..] == [];
    ConcernsWhatItStartsWith(line, pub);
    FieldsOfTrim(line);
  }

  lemma {:induction false} FileGrantAppend(a: seq<string>, b: seq<string>, pub: string)
    ensures FileGrant(a + b, pub) == if !FileGrant(a, pub).Denied? then FileGrant(a, pub) else FileGrant(b, pub)
  {
    if a == [] {
      assert a + b == b;
    } else {
      assert (a + b)[1..] == a[1..] + b;
      FileGrantAppend(a[1..], b, pub);
      if Concerns(a[0], pub) {
        NeverDenied(Fields(Trim(a[0]))[1..]);
      }
    }
  }

  lemma {:induction false} UnreadableInFile(lines: seq<string>, pub: string)
    requires !KeyOk(pub)
    ensures FileGrant(lines, pub) == Denied
  {
    if lines != [] {
      ConcernsWhatItStartsWith(lines[0], pub);
      UnreadableInFile(lines[1..], pub);
    }
  }

  /** No file grants anything to a key with white space inside or a leading '#'. */
  lemma UnreadableKey(local: File, system: File, pub: string)
    requires !KeyOk(Trim(pub))
    ensures KeyCapabilities(local, system, pub) == Denied
  {
    UnreadableInFile(Lines(local), Trim(pub));
    UnreadableInFile(Lines(system), Trim(pub));
  }

  // ----- what a revocation does -----

  lemma {:induction false} WithoutKeepsOthers(lines: seq<string>, pub: string, other: string)
    ensures FileGrant(Without(lines, pub), other) == if other == pub then Denied else FileGrant(lines, other)
  {
    if lines != [] {
      var front, last := lines[..|lines| - 1], lines[|lines| - 1];
      WithoutKeepsOthers(front, pub, other);
      assert lines == front + [last];
      FileGrantAppend(front, [last], other);
      FileGrantAppend(Without(front, pub), [last], other);
      GrantOfOne(last, other);
    }
  }

  lemma {:induction false} WithoutIsFree(lines: seq<string>, pub: string)
    requires AllFree(lines, '\n')
    ensures AllFree(Without(lines, pub), '\n')
  {
    if lines != [] {
      var front := lines[..|lines| - 1];
      assert forall i | 0 <= i < |front| :: front[i] == lines[i];
      assert Free(lines[|lines| - 1], '\n');
      WithoutIsFree(front, pub);
    }
  }

  /** The lines of the file `RevokeKey` leaves; a file with no lines left reads as one empty one. */
  lemma LinesAfterRevoke(local: File, pub: string)
    ensures var kept := Without(Lines(local), Trim(pub));
      Lines(Revoked(local, pub)) == if kept == [] && kept != Lines(local) then [""] else kept
  {
    var kept := Without(Lines(local), Trim(pub));
    if local.Some? {
      SplitPartsFree(local.value, '\n');
    }
    WithoutIsFree(Lines(local), Trim(pub));
    if kept != [] {
      SplitOfJoin(kept, '\n');
    }
  }

  /** After `RevokeKey` the key has only what the system file grants it, and every other key
      has what it had. */
  lemma RevokeRemovesOneKey(local: File, system: File, pub: string, other: string)
    ensures KeyCapabilities(Revoked(local, pub), system, pub) == KeyCapabilities(None, system, pub)
    ensures Trim(other) != Trim(pub) ==>
      KeyCapabilities(Revoked(local, pub), system, other) == KeyCapabilities(local, system, other)
  {
    LinesAfterRevoke(local, pub);
    WithoutKeepsOthers(Lines(local), Trim(pub), Trim(pub));
    WithoutKeepsOthers(Lines(local), Trim(pub), Trim(other));
    GrantOfOne("", Trim(pub));
    GrantOfOne("", Trim(other));
  }

  /** Empty, or ending in a newline. */
  predicate Terminated(data: string) {
    data == "" || data[|data| - 1] == '\n'
  }

  /** `RevokeKey` leaves a terminated file terminated. */
  lemma RevokeStaysTerminated(local: File, pub: string)
    requires Terminated(Data(local))
    ensures Terminated(Data(Revoked(local, pub)))
  {
    if local.Some? && local.value != "" {
      RevokedEndsBlank(local.value, Trim(pub));
    } else if local.Some? {
      assert Split("", '\n')[..0] == [];
      assert Without(Split("", '\n'), Trim(pub)) == [""];
    }
  }

  lemma RevokedEndsBlank(data: string, pub: string)
    requires data != "" && data[|data| - 1] == '\n'
    ensures Terminated(Join(Without(Split(data, '\n'), pub), '\n'))
  {
    var head := data[..|data| - 1];
    assert data == head + ['\n'] + "";
    SplitAround(head, '\n', "");
    var lines := Split(data, '\n');
    var front := lines[..|lines| - 1];
    assert lines[|lines| - 1] == "" && Without(lines, pub) == Without(front, pub) + [""];
    JoinEndsBlank(Without(front, pub));
  }

  lemma {:induction false} JoinEndsBlank(lines: seq<string>)
    ensures Terminated(Join(lines + [""], '\n'))
  {
    if lines != [] {
      assert (lines + [""])[1..] == lines[1..] + [""];
      JoinEndsBlank(lines[1..]);
    }
  }

  // ----- what an authorization does -----

  function FirstWord(s: string): string {
    s[..WordLength(s)]
  }

  function FirstLine(s: string): string {
    Split(s, '\n')[0]
  }

  /** What a fresh key line grants: the list up to its first white space; without a list, whatever
      the first line of the comment says. */
  function Granted(caps: string, comment: string): Grant {
    if Trim(caps) == "" then FieldsGrant(Fields(FirstLine(Trim(comment)))) else GrantOf(FirstWord(Trim(caps)))
  }

  /** The part of a key line after the key. */
  function Tail(caps: string, comment: string): string {
    (if Trim(caps) == "" then "" else " caps=" + Trim(caps)) + CommentTail(comment)
  }

  function CommentTail(comment: string): string {
    if Trim(comment) == "" then "" else " " + Trim(comment)
  }

  /** The lines that newlines in the list or the comment start. */
  function Further(caps: string, comment: string): seq<string> {
    Split(Tail(caps, comment), '\n')[1..]
  }

  function OrGrant(a: Grant, b: Grant): Grant {
    if a.Denied? then b else a
  }

  // ----- the first line of what is appended -----

  lemma {:induction false} SplitAfterFree(a: string, b: string)
    requires Free(a, '\n')
    ensures Split(a + b, '\n') == [a + FirstLine(b)] + Split(b, '\n')[1..]
  {
    if a == "" {
      assert a + b == b && a + FirstLine(b) == FirstLine(b);
    } else {
      assert (a + b)[1..] == a[1..] + b;
      SplitAfterFree(a[1..], b);
      assert [a[0]] + (a[1..] + FirstLine(b)) == a + FirstLine(b);
    }
  }

  /** Cutting a text at its first newline leaves its first character, unless that is the newline. */
  lemma FirstLineStart(s: string)
    requires s == "" || IsSpace(s[0])
    ensures var t := FirstLine(s); t == "" || IsSpace(t[0])
  {
  }

  lemma CommentGrants(comment: string)
    ensures Fields(FirstLine(CommentTail(comment))) == Fields(FirstLine(Trim(comment)))
  {
    if Trim(comment) != "" {
      SplitAfterFree(" ", Trim(comment));
      FieldsOfSpace(' ', FirstLine(Trim(comment)));
    }
  }

  lemma CapsGrants(caps: string, more: string)
    requires Trim(caps) != "" && (more == "" || IsSpace(more[0]))
    ensures FieldsGrant(Fields(FirstLine(" caps=" + Trim(caps) + more))) == GrantOf(FirstWord(Trim(caps)))
  {
    var c := Trim(caps);
    var w, rest := FirstWord(c), c[WordLength(c)..] + more;
    WordLengthShape(c);
    WordIsFree(w);
    Regroup(" caps=", c, WordLength(c), more);
    SplitAfterFree(" caps=" + w, rest);
    FirstLineStart(rest);
    CapsWord(w, FirstLine(rest));
  }

  lemma Regroup(tag: string, c: string, n: nat, rest: string)
    requires n <= |c|
    ensures tag + c + rest == (tag + c[..n]) + (c[n..] + rest)
  {
    assert c == c[..n] + c[n..];
  }

  lemma WordIsFree(w: string)
    requires SpaceFree(w)
    ensures Free(" caps=" + w, '\n')
  {
    assert IsSpace('\n') && Free(w, '\n') && Free(" caps=", '\n');
  }

  lemma CapsWord(w: string, rest: string)
    requires SpaceFree(w) && (rest == "" || IsSpace(rest[0]))
    ensures FieldsGrant(Fields((" caps=" + w) + rest)) == GrantOf(w)
  {
    CapsTagFree(w);
    assert " caps=" == [' '] + "caps=";
    SpaceInFront("caps=", w, rest);
    WordThen("caps=" + w, rest);
    FirstCapsField(Fields([' '] + (("caps=" + w) + rest)), w);
  }

  lemma SpaceInFront(tag: string, w: string, rest: string)
    ensures (([' '] + tag) + w) + rest == [' '] + ((tag + w) + rest)
  {
  }

  lemma FirstCapsField(fields: seq<string>, w: string)
    requires fields != [] && fields[0] == "caps=" + w
    ensures FieldsGrant(fields) == GrantOf(w)
  {
    assert ("caps=" + w)[5..] == w;
  }

  lemma CapsTagFree(word: string)
    requires SpaceFree(word)
    ensures SpaceFree("caps=" + word)
  {
    assert SpaceFree("caps=");
  }

  lemma WordThen(word: string, more: string)
    requires word != "" && SpaceFree(word) && (more == "" || IsSpace(more[0]))
    ensures var fields := Fields([' '] + (word + more)); fields != [] && fields[0] == word
  {
    FieldsOfSpace(' ', word + more);
    FieldsOfWord(word, more);
  }

  lemma TailGrants(caps: string, comment: string)
    ensures FieldsGrant(Fields(FirstLine(Tail(caps, comment)))) == Granted(caps, comment)
    ensures var t := FirstLine(Tail(caps, comment)); t == "" || IsSpace(t[0])
  {
    FirstLineStart(Tail(caps, comment));
    if Trim(caps) == "" {
      CommentGrants(comment);
      assert Tail(caps, comment) == CommentTail(comment);
    } else {
      CapsGrants(caps, CommentTail(comment));
    }
  }

  /** A line in which a fresh key stands grants the key what was asked for exactly when what stands
      before it is blank. */
  lemma GrantAfter(last: string, pub: string, rest: string)
    requires KeyOk(pub) && !StartsWithKey(last, pub) && (rest == "" || IsSpace(rest[0]))
    ensures FileGrant([last + pub + rest], pub) == if Blank(last) then FieldsGrant(Fields(rest)) else Denied
  {
    GrantOfOne(last + pub + rest, pub);
    if Blank(last) {
      assert last + pub + rest == last + (pub + rest);
      FieldsAfterBlank(last, pub + rest);
      FieldsOfWord(pub, rest);
      assert ([pub] + Fields(rest))[1..] == Fields(rest);
    } else {
      NotItsFirstField(last, pub, rest);
    }
  }

  lemma {:induction false} FieldsAfterBlank(last: string, line: string)
    requires Blank(last)
    ensures Fields(last + line) == Fields(line)
  {
    if last == "" {
      assert last + line == line;
    } else {
      assert last + line == [last[0]] + (last[1..] + line);
      FieldsOfSpace(last[0], last[1..] + line);
      FieldsAfterBlank(last[1..], line);
    }
  }

  lemma {:induction false} NotItsFirstField(last: string, pub: string, rest: string)
    requires KeyOk(pub) && !StartsWithKey(last, pub) && !Blank(last)
    ensures !StartsWithKey(last + pub + rest, pub)
  {
    var all := last + pub + rest;
    if IsSpace(last[0]) {
      assert all[1..] == last[1..] + pub + rest;
      assert Blank(last[1..]) ==> Blank(last);
      NotItsFirstField(last[1..], pub, rest);
    } else {
      WordLengthOfMore(last, pub, rest);
    }
  }

  lemma {:induction false} WordLengthOfMore(a: string, b: string, rest: string)
    requires SpaceFree(b)
    ensures var n := WordLength(a);
      if n < |a| then WordLength(a + b + rest) == n && (a + b + rest)[..n] == a[..n]
      else WordLength(a + b + rest) >= |a| + |b|
  {
    var all := a + b + rest;
    if a != "" && !IsSpace(a[0]) {
      assert all[1..] == a[1..] + b + rest;
      WordLengthOfMore(a[1..], b, rest);
    } else if a == "" && b != "" {
      assert all[1..] == a + b[1..] + rest;
      WordLengthOfMore(a, b[1..], rest);
    }
  }

  // ----- the lines of the file afterwards -----

  /** The text after the last newline. */
  function LastLine(data: string): string {
    var lines := Split(data, '\n');
    lines[|lines| - 1]
  }

  /** The lines before that. */
  function FrontLines(data: string): seq<string> {
    var lines := Split(data, '\n');
    lines[..|lines| - 1]
  }

  lemma AppendLine(data: string, text: string)
    ensures Split(data + text + "\n", '\n') == FrontLines(data) + Split(LastLine(data) + text, '\n') + [""]
  {
    SplitAround(data + text, '\n', "");
    assert data + text + "\n" == data + text + ['\n'] + "";
    AppendToLast(data, text);
  }

  lemma AppendToLast(data: string, text: string)
    ensures Split(data + text, '\n') == FrontLines(data) + Split(LastLine(data) + text, '\n')
    ensures Free(LastLine(data), '\n')
  {
    var k := LastStart(data);
    var last := data[k..];
    if k == 0 {
      assert last == data;
      SplitFree(data, '\n');
      assert [] + Split(data + text, '\n') == Split(data + text, '\n');
    } else {
      var head := data[..k - 1];
      assert data == head + ['\n'] + last;
      SplitBeforeFree(head, last);
      Reassociate(head + ['\n'], last, text);
      SplitAround(head, '\n', last + text);
    }
  }

  lemma Reassociate(a: string, b: string, c: string)
    ensures a + b + c == a + (b + c)
  {
  }

  lemma SplitBeforeFree(head: string, last: string)
    requires Free(last, '\n')
    ensures FrontLines(head + ['\n'] + last) == Split(head, '\n') && LastLine(head + ['\n'] + last) == last
  {
    SplitAround(head, '\n', last);
    SplitFree(last, '\n');
  }

  /** Where the text after the last newline starts. */
  function LastStart(data: string): (k: nat)
    ensures k <= |data| && Free(data[k..], '\n') && (k == 0 || data[k - 1] == '\n')
  {
    if data == "" then 0
    else if data[|data| - 1] == '\n' then |data|
    else
      var k := LastStart(data[..|data| - 1]);
      assert data[k..] == data[..|data| - 1][k..] + [data[|data| - 1]];
      k
  }

  function Data(f: File): string {
    if f.Some? then f.value else ""
  }

  ghost function Appended(local: File, pub: string, caps: string, comment: string): File {
    Some(Data(local) + KeyLine(Trim(pub), caps, comment) + "\n")
  }

  lemma GrantInFile(f: File, pub: string)
    ensures FileGrant(Lines(f), pub)
         == OrGrant(FileGrant(FrontLines(Data(f)), pub), FileGrant([LastLine(Data(f))], pub))
  {
    var data := Data(f);
    assert Split(data, '\n') == FrontLines(data) + [LastLine(data)];
    FileGrantAppend(FrontLines(data), [LastLine(data)], pub);
    if f.None? {
      GrantOfOne("", pub);
      assert Split("", '\n') == [""];
    }
  }

  /** What any key has after any append to any file: what the lines before the last one grant, else
      what the last one grants with the new text behind it, line by line. */
  lemma GrantAfterAppend(local: File, pub: string, caps: string, comment: string, other: string)
    ensures var text := LastLine(Data(local)) + KeyLine(Trim(pub), caps, comment);
      FileGrant(Lines(Appended(local, pub, caps, comment)), other)
        == OrGrant(FileGrant(FrontLines(Data(local)), other), FileGrant(Split(text, '\n'), other))
  {
    var data, line := Data(local), KeyLine(Trim(pub), caps, comment);
    var front, text := FrontLines(data), Split(LastLine(data) + line, '\n');
    AppendLine(data, line);
    FileGrantAppend(front, text, other);
    FileGrantAppend(front + text, [""], other);
    GrantOfOne("", other);
  }

  /** The last line of the file with a readable key's line behind it, line by line. */
  lemma NewLines(last: string, pub: string, caps: string, comment: string)
    requires KeyOk(pub) && Free(last, '\n')
    ensures Split(last + KeyLine(pub, caps, comment), '\n')
         == [last + pub + FirstLine(Tail(caps, comment))] + Further(caps, comment)
  {
    assert IsSpace('\n') && Free(pub, '\n');
    assert KeyLine(pub, caps, comment) == pub + Tail(caps, comment);
    Reassociate(last, pub, Tail(caps, comment));
    SplitAfterFree(last + pub, Tail(caps, comment));
  }

  lemma GrantOfNewLines(last: string, pub: string, caps: string, comment: string, other: string)
    requires KeyOk(pub) && Free(last, '\n')
    ensures FileGrant(Split(last + KeyLine(pub, caps, comment), '\n'), other)
         == OrGrant(
              FileGrant([last + pub + FirstLine(Tail(caps, comment))], other), FileGrant(Further(caps, comment), other))
  {
    NewLines(last, pub, caps, comment);
    FileGrantAppend([last + pub + FirstLine(Tail(caps, comment))], Further(caps, comment), other);
  }

  // ----- what the key gets -----

  lemma LastDoesNotStart(last: string, pub: string)
    requires KeyOk(pub) && FileGrant([last], pub) == Denied
    ensures !StartsWithKey(last, pub)
  {
    GrantOfOne(last, pub);
    if StartsWithKey(last, pub) {
      NeverDenied(Fields(last)[1..]);
    }
  }

  /** Appending a line of a key that nobody had, whatever list and comment: in a file whose last line
      is blank it gets what was asked for; after an unterminated line of anything else it gets only
      what further lines of its own text happen to grant, although `AuthorizeKey` reports success. A
      key that cannot be read never gets anything. */
  lemma AuthorizeGrantsIff(local: File, system: File, pub: string, caps: string, comment: string)
    requires Trim(pub) != "" && KeyCapabilities(local, system, pub) == Denied
    ensures KeyCapabilities(Appended(local, pub, caps, comment), system, pub)
         == if !KeyOk(Trim(pub)) then Denied
            else if Blank(LastLine(Data(local))) then Granted(caps, comment)
            else FileGrant(Further(caps, comment), Trim(pub))
  {
    var p, data := Trim(pub), Data(local);
    if KeyOk(p) {
      var last := LastLine(data);
      AppendToLast(data, "");
      GrantInFile(local, p);
      LastDoesNotStart(last, p);
      GrantAfterAppend(local, pub, caps, comment, p);
      GrantOfNewLines(last, p, caps, comment, p);
      TailGrants(caps, comment);
      GrantAfter(last, p, FirstLine(Tail(caps, comment)));
      NeverDenied(Fields(FirstLine(Tail(caps, comment))));
    } else {
      UnreadableKey(Appended(local, pub, caps, comment), system, pub);
    }
  }

  // ----- what other keys get -----

  /** Whatever the file and whatever is appended, another key keeps exactly what it had if and only if
      the lines before the last one grant it, or the last line with the new text behind it, with the
      system file behind both, gives what the last line gave. The file then ends in a newline. */
  lemma AuthorizeKeepsOthersIff(
    local: File, system: File, pub: string, caps: string, comment: string, other: string)
    ensures var after, o := Appended(local, pub, caps, comment), Trim(other);
      var last, sys := LastLine(Data(local)), FileGrant(Lines(system), Trim(other));
      var glued := FileGrant(Split(last + KeyLine(Trim(pub), caps, comment), '\n'), o);
      && (KeyCapabilities(after, system, other) == KeyCapabilities(local, system, other) <==>
            !FileGrant(FrontLines(Data(local)), o).Denied?
            || OrGrant(glued, sys) == OrGrant(FileGrant([last], o), sys))
      && Terminated(after.value)
  {
    GrantInFile(local, Trim(other));
    GrantAfterAppend(local, pub, caps, comment, Trim(other));
    if Trim(other) == "" {
      UnreadableInFile(Split(LastLine(Data(local)) + KeyLine(Trim(pub), caps, comment), '\n'), "");
      UnreadableInFile([LastLine(Data(local))], "");
    }
  }

  /** A last line that is just another key: that key had everything by it, and has it no more. */
  lemma GluedKeyIsLost(local: File, pub: string, caps: string, comment: string, other: string)
    requires KeyOk(Trim(pub)) && KeyOk(other) && LastLine(Data(local)) == other
    requires FileGrant(FrontLines(Data(local)), other).Denied? && FileGrant(Further(caps, comment), other).Denied?
    ensures FileGrant(Lines(local), other) == Unrestricted
    ensures FileGrant(Lines(Appended(local, pub, caps, comment)), other) == Denied
  {
    GrantInFile(local, other);
    GrantAfterAppend(local, pub, caps, comment, other);
    AppendToLast(Data(local), "");
    GrantOfNewLines(other, Trim(pub), caps, comment, other);
    KeyAloneGrants(other);
    GluedWord(other, Trim(pub), FirstLine(Tail(caps, comment)));
  }

  lemma KeyAloneGrants(key: string)
    requires KeyOk(key)
    ensures FileGrant([key], key) == Unrestricted
  {
    FieldsOfWord(key, "");
    assert key + "" == key;
    GrantOfOne(key, key);
    assert [key][1..] == [];
  }

  lemma GluedWord(other: string, pub: string, rest: string)
    requires KeyOk(other) && KeyOk(pub)
    ensures FileGrant([other + pub + rest], other) == Denied
  {
    GrantOfOne(other + pub + rest, other);
    WordLengthOfPrefix(other, "");
    assert other + "" == other;
    WordLengthOfMore(other, pub, rest);
  }

  /** A last line that has more than another key: the new key lengthens its last field, and what the
      list then reads is what the key has. */
  lemma GluedListIsRead(other: string, more: string, pub: string, rest: string)
    requires KeyOk(other) && more != "" && IsSpace(more[0])
    ensures FileGrant([other + more], other) == FieldsGrant(Fields(more))
    ensures FileGrant([other + more + pub + rest], other) == FieldsGrant(Fields(more + pub + rest))
  {
    OwnLine(other, more);
    assert other + more + pub + rest == other + (more + pub + rest);
    OwnLine(other, more + pub + rest);
  }

  lemma OwnLine(key: string, more: string)
    requires KeyOk(key) && more != "" && IsSpace(more[0])
    ensures FileGrant([key + more], key) == FieldsGrant(Fields(more))
  {
    FieldsOfWord(key, more);
    GrantOfOne(key + more, key);
    assert ([key] + Fields(more))[1..] == Fields(more);
  }

  /** With a blank last line, as in any terminated file, another key has what it had there, else what
      the further lines of the new text grant. */
  lemma AuthorizeOthers(local: File, pub: string, caps: string, comment: string, other: string)
    requires KeyOk(Trim(pub)) && other != Trim(pub) && Blank(LastLine(Data(local)))
    ensures FileGrant(Lines(Appended(local, pub, caps, comment)), other)
         == OrGrant(FileGrant(Lines(local), other), FileGrant(Further(caps, comment), other))
  {
    var last := LastLine(Data(local));
    AppendToLast(Data(local), "");
    GrantInFile(local, other);
    GrantAfterAppend(local, pub, caps, comment, other);
    FieldsOfBlank(last);
    GrantOfOne(last, other);
    NewLinesForOthers(last, Trim(pub), caps, comment, other);
  }

  lemma NewLinesForOthers(last: string, pub: string, caps: string, comment: string, other: string)
    requires KeyOk(pub) && other != pub && Blank(last) && Free(last, '\n')
    ensures FileGrant(Split(last + KeyLine(pub, caps, comment), '\n'), other)
         == FileGrant(Further(caps, comment), other)
  {
    GrantOfNewLines(last, pub, caps, comment, other);
    TailGrants(caps, comment);
    NothingForOthers(last, pub, FirstLine(Tail(caps, comment)), other);
  }

  lemma NothingForOthers(last: string, pub: string, rest: string, other: string)
    requires KeyOk(pub) && other != pub && Blank(last) && (rest == "" || IsSpace(rest[0]))
    ensures FileGrant([last + pub + rest], other) == Denied
  {
    assert last + pub + rest == last + (pub + rest);
    GrantOfOne(last + (pub + rest), other);
    FieldsAfterBlank(last, pub + rest);
    FieldsOfWord(pub, rest);
  }

  /** Without a newline in list and comment there are no further lines, and on a blank last line nobody
      else is touched. */
  lemma AuthorizeKeepsOthers(local: File, system: File, pub: string, caps: string, comment: string, other: string)
    requires KeyOk(Trim(pub)) && Trim(other) != Trim(pub) && Blank(LastLine(Data(local)))
    requires Free(Trim(caps), '\n') && Free(Trim(comment), '\n')
    ensures Further(caps, comment) == []
    ensures KeyCapabilities(Appended(local, pub, caps, comment), system, other) == KeyCapabilities(local, system, other)
  {
    assert Free(" caps=", '\n') && Free(" ", '\n');
    SplitFree(Tail(caps, comment), '\n');
    AuthorizeOthers(local, pub, caps, comment, Trim(other));
  }

  /** A comment that ends in a line with another key authorizes that key, without any limit. */
  lemma NewlineAuthorizesAnother(local: File, system: File, pub: string, comment: string, first: string, other: string)
    requires KeyOk(Trim(pub)) && KeyOk(other) && other != Trim(pub) && Blank(LastLine(Data(local)))
    requires KeyCapabilities(local, system, other) == Denied
    requires Free(first, '\n') && Trim(comment) == first + ['\n'] + other
    ensures KeyCapabilities(Appended(local, pub, "", comment), system, other) == Unrestricted
  {
    KeyIsTrimmed(other);
    FurtherIsTheKey(comment, first, other);
    KeyAloneGrants(other);
    AuthorizeOthers(local, pub, "", comment, other);
  }

  lemma KeyIsTrimmed(key: string)
    requires KeyOk(key)
    ensures Trim(key) == key
  {
    assert !IsSpace(key[0]) && !IsSpace(key[|key| - 1]);
    TrimOfTrimmed(key);
  }

  lemma FurtherIsTheKey(comment: string, first: string, other: string)
    requires KeyOk(other) && Free(first, '\n') && Trim(comment) == first + ['\n'] + other
    ensures Further("", comment) == [other]
  {
    assert IsSpace('\n') && Free(other, '\n');
    var head := " " + first;
    assert Tail("", comment) == head + ['\n'] + other;
    SplitAround(head, '\n', other);
    SplitFree(head, '\n');
    SplitFree(other, '\n');
  }

  /** So every terminated file has a blank last line. */
  lemma TerminatedLastLine(data: string)
    requires Terminated(data)
    ensures LastLine(data) == "" && Blank(LastLine(data))
  {
    if data != "" {
      var head := data[..|data| - 1];
      assert data == head + ['\n'] + "";
      SplitAround(head, '\n', "");
    }
  }

  /** The capability set asked for is the set granted when the list holds no white space; no list,
      or one with "all" in it, grants everything unless the comment's first line holds a caps= field. */
  lemma GrantedIsTheSet(caps: string, comment: string)
    requires SpaceFree(Trim(caps))
    ensures Trim(caps) != "" ==> Granted(caps, comment) == GrantOf(Trim(caps))
    ensures Trim(caps) == "" && NoCapsField(FirstLine(Trim(comment))) ==> Granted(caps, comment) == Unrestricted
  {
    WordLengthOfPrefix(Trim(caps), "");
    assert Trim(caps) + "" == Trim(caps);
    if NoCapsField(FirstLine(Trim(comment))) {
      NoCapsIsUnrestricted(Fields(FirstLine(Trim(comment))));
    }
  }

  ghost predicate NoCapsField(text: string) {
    forall i | 0 <= i < |Fields(text)| :: !("caps=" <= Fields(text)[i])
  }

  lemma {:induction false} NoCapsIsUnrestricted(fields: seq<string>)
    requires forall i | 0 <= i < |fields| :: !("caps=" <= fields[i])
    ensures FieldsGrant(fields) == Unrestricted
  {
    if fields != [] {
      NoCapsIsUnrestricted(fields[1..]);
    }
  }

  // ----- what a capability list means -----

  /** A capability that can stand in a list. */
  predicate EntryOk(c: string) {
    SpaceFree(c) && ',' !in c
  }

  /** The lower-cased capabilities of a list, empty entries aside. */
  function Wanted(list: seq<string>): set<string> {
    set c | c in list && c != "" :: ToLower(c)
  }

  lemma {:induction false} CapSetIsWanted(list: seq<string>)
    requires forall c | c in list :: EntryOk(c)
    ensures CapSet(list) == Wanted(list)
  {
    if list != [] {
      var c, rest := list[0], list[1..];
      assert c in list && forall d | d in rest :: d in list;
      CapSetIsWanted(rest);
      TrimOfSpaceFree(c);
      assert |ToLower(c)| == |c|;
      assert list == [c] + rest;
      assert Wanted(list) == Wanted(rest) + (if c == "" then {} else {ToLower(c)});
    }
  }

  lemma TrimOfSpaceFree(s: string)
    requires SpaceFree(s)
    ensures Trim(s) == s
  {
    TrimOfTrimmed(s);
  }

  lemma {:induction false} JoinedEntries(list: seq<string>)
    requires forall c | c in list :: EntryOk(c)
    ensures SpaceFree(Join(list, ','))
  {
    if |list| > 1 {
      assert list[0] in list && forall c | c in list[1..] :: c in list;
      JoinedEntries(list[1..]);
    } else if |list| == 1 {
      assert list[0] in list;
    }
  }

  /** A key that nobody had, authorized on a blank last line with a list of capabilities, has exactly the
      lower-cased non-empty ones; it has all of them if "all" is among them or none is left. */
  lemma AuthorizedForExactly(local: File, system: File, pub: string, list: seq<string>, comment: string)
    requires KeyOk(Trim(pub)) && KeyCapabilities(local, system, pub) == Denied && Blank(LastLine(Data(local)))
    requires forall c | c in list :: EntryOk(c)
    requires Join(list, ',') == "" ==> NoCapsField(FirstLine(Trim(comment)))
    ensures var wanted := set c | c in list && c != "" :: ToLower(c);
      KeyCapabilities(Appended(local, pub, Join(list, ','), comment), system, pub)
        == if wanted == {} || "all" in wanted then Unrestricted else Restricted(wanted)
  {
    AuthorizeGrantsIff(local, system, pub, Join(list, ','), comment);
    GrantedJoined(list, comment);
    assert Wanted(list) == set c | c in list && c != "" :: ToLower(c);
  }

  lemma GrantedJoined(list: seq<string>, comment: string)
    requires forall c | c in list :: EntryOk(c)
    requires Join(list, ',') == "" ==> NoCapsField(FirstLine(Trim(comment)))
    ensures Granted(Join(list, ','), comment) ==
      if Wanted(list) == {} || "all" in Wanted(list) then Unrestricted else Restricted(Wanted(list))
  {
    var caps := Join(list, ',');
    JoinedEntries(list);
    TrimOfSpaceFree(caps);
    GrantedIsTheSet(caps, comment);
    if caps == "" {
      NothingJoined(list);
    } else {
      GrantOfJoined(list);
    }
  }

  lemma NothingJoined(list: seq<string>)
    requires Join(list, ',') == ""
    ensures Wanted(list) == {}
  {
    if list != [] {
      assert |list| == 1 && list[0] == "";
    }
  }

  lemma GrantOfJoined(list: seq<string>)
    requires Join(list, ',') != "" && forall c | c in list :: EntryOk(c)
    ensures GrantOf(Join(list, ',')) ==
      if Wanted(list) == {} || "all" in Wanted(list) then Unrestricted else Restricted(Wanted(list))
  {
    forall i | 0 <= i < |list|
      ensures Free(list[i], ',')
    {
      assert list[i] in list;
    }
    SplitOfJoin(list, ',');
    CapSetIsWanted(list);
  }

  /** The system file is read where the local one says nothing, and in the same way. */
  lemma SystemFileIsRead(file: File, pub: string)
    ensures KeyCapabilities(None, file, pub) == KeyCapabilities(file, None, pub)
  {
  }
}
