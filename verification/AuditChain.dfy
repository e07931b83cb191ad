/** The hash-chained audit log: the daemon that appends to it (`auditLog`, reseeding with
    `lastAuditHash` after a restart) and the verifier `audit-verify` that reads it back. */
module AuditChain {
  import opened Text

  /** What the verifier sees in one line. */
  datatype Parsed = NotJson | Unchained | Chained(prev: string)

  /** SHA-256 and the JSON encoding of records, as parameters. */
  datatype Codec = Codec(
    hash: string -> string,
    render: (string, string) -> string,   // prev and the other fields of a record
    parse: string -> Parsed)

  /** A collision-free hash, and an encoder whose lines carry their prev field. */
  ghost predicate Faithful(k: Codec) {
    && (forall a, b :: k.hash(a) == k.hash(b) ==> a == b)
    && (forall a :: k.hash(a) != "")
    && (forall prev, fields :: LineOk(k.render(prev, fields)) && k.parse(k.render(prev, fields)) == Chained(prev))
  }

  /** A line that trimming and splitting leave alone. */
  predicate LineOk(line: string) {
    line != "" && Trimmed(line) && Free(line, '\n')
  }

  // ----- the verifier -----

  function LinesOf(data: string): seq<string> {
    Split(ChompNewlines(data), '\n')
  }

  /** The non-blank lines, trimmed. */
  function Records(lines: seq<string>): seq<string> {
    if lines == [] then []
    else
      var front := Records(lines[..|lines| - 1]);
      var line := Trim(lines[|lines| - 1]);
      if line == "" then front else front + [line]
  }

  /** Every record parses and every chained record but the first names the line before it. */
  ghost predicate Verifies(k: Codec, records: seq<string>) {
    forall i | 0 <= i < |records| :: RecordOk(k, records, i)
  }

  predicate RecordOk(k: Codec, records: seq<string>, i: nat)
    requires i < |records|
  {
    match k.parse(records[i])
    case NotJson => false
    case Unchained => true
    case Chained(prev) => i == 0 || prev == k.hash(records[i - 1])
  }

  /** `j` is the last line before `i` that is not blank. */
  predicate IsBefore(lines: seq<string>, j: nat, i: nat) {
    j < i <= |lines| && Trim(lines[j]) != "" && forall m | j < m < i :: Trim(lines[m]) == ""
  }

  /** The verifier must report line `i`: it is not JSON, or it names another line than the one before. */
  ghost predicate Faulty(k: Codec, lines: seq<string>, i: nat)
    requires i < |lines|
  {
    var line := Trim(lines[i]);
    line != "" &&
    match k.parse(line)
    case NotJson => true
    case Unchained => false
    case Chained(prev) => exists j: nat :: IsBefore(lines, j, i) && prev != k.hash(Trim(lines[j]))
  }

  ghost predicate Increasing(numbers: seq<nat>) {
    forall a, b | 0 <= a < b < |numbers| :: numbers[a] < numbers[b]
  }

  /** `cmdAuditVerify`; violations are line numbers, counted from 1. */
  method AuditVerify(k: Codec, data: string)
    returns (verified: bool, total: nat, chained: nat, violations: seq<nat>)
    ensures verified <==> Verifies(k, Records(LinesOf(data)))
    ensures verified <==> forall i | 0 <= i < |LinesOf(data)| :: !Faulty(k, LinesOf(data), i)
    ensures total == |Records(LinesOf(data))| && chained == |ChainedAt(k, Records(LinesOf(data)))|
    ensures forall n :: n in violations <==> 0 < n <= |LinesOf(data)| && Faulty(k, LinesOf(data), n - 1)
    ensures Increasing(violations)
  {
    total, chained, violations := VerifyLines(k, LinesOf(data));
    verified := violations == [];
    assert verified ==> forall n | 0 < n <= |LinesOf(data)| :: n !in violations;
    assert !verified ==> violations[0] in violations;
    assert forall i | 0 <= i < |LinesOf(data)| && Faulty(k, LinesOf(data), i) :: i + 1 in violations;
  }

  method VerifyLines(k: Codec, lines: seq<string>) returns (total: nat, chained: nat, violations: seq<nat>)
    ensures violations == [] <==> Verifies(k, Records(lines))
    ensures total == |Records(lines)| && chained == |ChainedAt(k, Records(lines))|
    ensures forall n :: n in violations <==> 0 < n <= |lines| && Faulty(k, lines, n - 1)
    ensures Increasing(violations)
  {
    var prev := "";
    var first := true;
    total, chained, violations := 0, 0, [];
    for i := 0 to |lines|
      invariant Scan(prev, first, total, chained, violations) == ScanTo(k, lines, i)
    {
      var line := Trim(lines[i]);
      if line == "" {
        continue;
      }
      total := total + 1;
      var parsed := k.parse(line);
      if parsed.NotJson? || (parsed.Chained? && !first && parsed.prev != prev) {
        violations := violations + [i + 1];
      }
      if parsed.Chained? {
        chained := chained + 1;
      }
      prev, first := k.hash(line), false;
    }
    var _ := ScanIsRight(k, lines, |lines|);
    assert lines[..|lines|] == lines;
  }

  /** The variables of the loop after `n` lines. */
  datatype Scan = Scan(prev: string, first: bool, total: nat, chained: nat, violations: seq<nat>)

  function ScanTo(k: Codec, lines: seq<string>, n: nat): Scan
    requires n <= |lines|
  {
    if n == 0 then Scan("", true, 0, 0, [])
    else
      var s, line := ScanTo(k, lines, n - 1), Trim(lines[n - 1]);
      if line == "" then s
      else
        var parsed := k.parse(line);
        var bad := parsed.NotJson? || (parsed.Chained? && !s.first && parsed.prev != s.prev);
        Scan(k.hash(line), false, s.total + 1, if parsed.Chained? then s.chained + 1 else s.chained,
             if bad then s.violations + [n] else s.violations)
  }

  lemma {:induction false} ScanIsRight(k: Codec, lines: seq<string>, n: nat) returns (last: nat)
    requires n <= |lines|
    ensures var s, seen := ScanTo(k, lines, n), Records(lines[..n]);
      && Scanned(k, lines, n, seen, s.first, s.prev, last)
      && Counted(k, lines, n, seen, s.total, s.chained, s.violations)
  {
    if n == 0 {
      last := 0;
    } else {
      last := ScanIsRight(k, lines, n - 1);
      ScanOneMore(k, lines, n - 1, last);
      if Trim(lines[n - 1]) != "" {
        last := n - 1;
      }
    }
  }

  lemma ScanOneMore(k: Codec, lines: seq<string>, n: nat, last: nat)
    requires n < |lines|
    requires var s, seen := ScanTo(k, lines, n), Records(lines[..n]);
      && Scanned(k, lines, n, seen, s.first, s.prev, last)
      && Counted(k, lines, n, seen, s.total, s.chained, s.violations)
    ensures var s, seen := ScanTo(k, lines, n + 1), Records(lines[..n + 1]);
      && Scanned(k, lines, n + 1, seen, s.first, s.prev, if Trim(lines[n]) == "" then last else n)
      && Counted(k, lines, n + 1, seen, s.total, s.chained, s.violations)
  {
    var s, seen := ScanTo(k, lines, n), Records(lines[..n]);
    ScannedOneMore(k, lines, n, seen, s.first, s.prev, last);
    CountedOneMore(k, lines, n, seen, s.total, s.chained, s.violations);
    RecordsOneMore(lines, n);
  }

  lemma RecordsOneMore(lines: seq<string>, n: nat)
    requires n < |lines|
    ensures var line := Trim(lines[n]);
      Records(lines[..n + 1]) == if line == "" then Records(lines[..n]) else Records(lines[..n]) + [line]
  {
    assert lines[..n + 1][..n] == lines[..n];
  }

  /** What the verifier has to show after `n` lines. */
  ghost predicate Counted(
    k: Codec, lines: seq<string>, n: nat, seen: seq<string>, total: nat, chained: nat, violations: seq<nat>)
  {
    && total == |seen| && chained == |ChainedAt(k, seen)|
    && (violations == [] <==> Verifies(k, seen))
    && Reported(k, lines, n, violations)
  }

  lemma CountedOneMore(
    k: Codec, lines: seq<string>, n: nat, seen: seq<string>, total: nat, chained: nat, violations: seq<nat>)
    requires n < |lines| && Counted(k, lines, n, seen, total, chained, violations)
    requires var line := Trim(lines[n]);
      if line == "" then !Faulty(k, lines, n) else RecordOk(k, seen + [line], |seen|) == !Faulty(k, lines, n)
    ensures var line := Trim(lines[n]);
      var now := if Faulty(k, lines, n) then violations + [n + 1] else violations;
      if line == "" then Counted(k, lines, n + 1, seen, total, chained, violations)
      else
        Counted(k, lines, n + 1, seen + [line], total + 1,
                if k.parse(line).Chained? then chained + 1 else chained, now)
  {
    ReportedOneMore(k, lines, n, violations);
    AppendVerifies(k, seen, Trim(lines[n]));
    AppendChained(k, seen, Trim(lines[n]));
  }

  /** What the scan holds after `n` lines. */
  ghost predicate Scanned(
    k: Codec, lines: seq<string>, n: nat, seen: seq<string>, first: bool, prev: string, last: nat)
  {
    && n <= |lines| && seen == Records(lines[..n])
    && (first <==> seen == [])
    && if first then NoneBefore(lines, n)
       else IsBefore(lines, last, n) && seen[|seen| - 1] == Trim(lines[last]) && prev == k.hash(Trim(lines[last]))
  }

  lemma ScannedOneMore(
    k: Codec, lines: seq<string>, n: nat, seen: seq<string>, first: bool, prev: string, last: nat)
    requires n < |lines| && Scanned(k, lines, n, seen, first, prev, last)
    ensures var line := Trim(lines[n]);
      if line == "" then Scanned(k, lines, n + 1, seen, first, prev, last) && !Faulty(k, lines, n)
      else
        && Scanned(k, lines, n + 1, seen + [line], false, k.hash(line), n)
        && RecordOk(k, seen + [line], |seen|) == !Faulty(k, lines, n)
        && (Faulty(k, lines, n) <==>
              k.parse(line).NotJson? || (k.parse(line).Chained? && !first && k.parse(line).prev != prev))
  {
    assert lines[..n + 1][..n] == lines[..n];
    if Trim(lines[n]) != "" {
      FaultyWhen(k, lines, n, first, last);
    }
  }

  predicate NoneBefore(lines: seq<string>, i: nat) {
    i <= |lines| && forall m | 0 <= m < i :: Trim(lines[m]) == ""
  }

  /** The faulty lines among the first `n`, in order. */
  ghost predicate Reported(k: Codec, lines: seq<string>, n: nat, violations: seq<nat>) {
    && n <= |lines|
    && (forall m :: m in violations <==> 0 < m <= n && Faulty(k, lines, m - 1))
    && Increasing(violations)
  }

  lemma ReportedOneMore(k: Codec, lines: seq<string>, n: nat, violations: seq<nat>)
    requires n < |lines| && Reported(k, lines, n, violations)
    ensures Reported(k, lines, n + 1, if Faulty(k, lines, n) then violations + [n + 1] else violations)
  {
    assert forall a | 0 <= a < |violations| :: violations[a] in violations;
  }

  lemma FaultyWhen(k: Codec, lines: seq<string>, i: nat, first: bool, last: nat)
    requires i < |lines| && Trim(lines[i]) != ""
    requires if first then NoneBefore(lines, i) else IsBefore(lines, last, i)
    ensures var parsed := k.parse(Trim(lines[i]));
      Faulty(k, lines, i) <==>
        parsed.NotJson? || (parsed.Chained? && !first && parsed.prev != k.hash(Trim(lines[last])))
  {
    forall j: nat | IsBefore(lines, j, i)
      ensures !first && j == last
    {
    }
  }

  lemma OwnRecordOk(k: Codec, records: seq<string>, i: nat)
    requires i < |records|
    ensures RecordOk(k, records, i) <==>
      && !k.parse(records[i]).NotJson?
      && (i > 0 && k.parse(records[i]).Chained? ==> k.parse(records[i]).prev == k.hash(records[i - 1]))
  {
  }

  /** What verifying means for the records themselves. */
  lemma VerifiesMeans(k: Codec, records: seq<string>)
    ensures Verifies(k, records) <==>
      && (forall i | 0 <= i < |records| :: !k.parse(records[i]).NotJson?)
      && (forall i | 0 < i < |records| && k.parse(records[i]).Chained? ::
            k.parse(records[i]).prev == k.hash(records[i - 1]))
  {
    forall i | 0 <= i < |records|
      ensures Verifies(k, records) ==> !k.parse(records[i]).NotJson?
      ensures Verifies(k, records) && i > 0 && k.parse(records[i]).Chained? ==>
        k.parse(records[i]).prev == k.hash(records[i - 1])
    {
      assert Verifies(k, records) ==> RecordOk(k, records, i);
    }
  }

  ghost function ChainedAt(k: Codec, records: seq<string>): set<nat> {
    set i: nat | 0 <= i < |records| && k.parse(records[i]).Chained?
  }

  lemma AppendVerifies(k: Codec, records: seq<string>, line: string)
    ensures Verifies(k, records + [line]) <==> Verifies(k, records) && RecordOk(k, records + [line], |records|)
  {
    var more := records + [line];
    assert forall i | 0 <= i < |records| :: RecordOk(k, more, i) <==> RecordOk(k, records, i);
  }

  lemma AppendChained(k: Codec, records: seq<string>, line: string)
    ensures |ChainedAt(k, records + [line])| == |ChainedAt(k, records)| + (if k.parse(line).Chained? then 1 else 0)
  {
    var here := if k.parse(line).Chained? then {|records|} else {};
    assert ChainedAt(k, records + [line]) == ChainedAt(k, records) + here;
  }

  // ----- the log file -----

  /** The content of a log that holds these lines. */
  function Unlines(records: seq<string>): string {
    if records == [] then ""
    else Unlines(records[..|records| - 1]) + records[|records| - 1] + ['\n']
  }

  predicate AllOk(records: seq<string>) {
    forall i | 0 <= i < |records| :: LineOk(records[i])
  }

  function Body(records: seq<string>): string
    requires records != []
  {
    Unlines(records[..|records| - 1]) + records[|records| - 1]
  }

  lemma ChompOne(before: string, last: string)
    requires last != "" && last[|last| - 1] != '\n'
    ensures ChompNewlines(before + last + ['\n']) == before + last
  {
    assert (before + last + ['\n'])[..|before + last|] == before + last;
  }

  lemma ChompOfUnlines(records: seq<string>)
    requires records != [] && AllOk(records)
    ensures ChompNewlines(Unlines(records)) == Body(records)
  {
    var last := records[|records| - 1];
    assert LineOk(last) && last[|last| - 1] in last;
    ChompOne(Unlines(records[..|records| - 1]), last);
  }

  lemma {:induction false} SplitOfBody(records: seq<string>)
    requires records != [] && AllOk(records)
    ensures Split(Body(records), '\n') == records
  {
    var front, last := records[..|records| - 1], records[|records| - 1];
    SplitFree(last, '\n');
    if front == [] {
      assert Body(records) == last;
    } else {
      SplitOfBody(front);
      assert Body(records) == Body(front) + ['\n'] + last;
      SplitAround(Body(front), '\n', last);
    }
  }

  lemma LinesOfUnlines(records: seq<string>)
    requires records != [] && AllOk(records)
    ensures LinesOf(Unlines(records)) == records
  {
    ChompOfUnlines(records);
    SplitOfBody(records);
  }

  lemma {:induction false} RecordsOfOk(records: seq<string>)
    requires AllOk(records)
    ensures Records(records) == records
  {
    if records != [] {
      var front, last := records[..|records| - 1], records[|records| - 1];
      RecordsOfOk(front);
      TrimOfTrimmed(last);
      assert LineOk(last);
      assert front + [last] == records;
    }
  }

  lemma RecordsOfLog(records: seq<string>)
    requires AllOk(records)
    ensures Records(LinesOf(Unlines(records))) == records
  {
    if records == [] {
      assert LinesOf("") == [""];
      assert [""][..0] == [];
      assert Records([""]) == Records([""][..0]);
    } else {
      LinesOfUnlines(records);
      RecordsOfOk(records);
    }
  }

  /** `lastAuditHash` */
  function LastHash(k: Codec, data: string, readable: bool): string {
    if !readable || data == "" then ""
    else
      var lines := LinesOf(data);
      var last := Trim(lines[|lines| - 1]);
      if last == "" then "" else k.hash(last)
  }

  function Head(k: Codec, records: seq<string>): string {
    if records == [] then "" else k.hash(records[|records| - 1])
  }

  lemma LastHashOfLog(k: Codec, records: seq<string>, readable: bool)
    requires AllOk(records)
    ensures LastHash(k, Unlines(records), readable) == if readable then Head(k, records) else ""
  {
    if records != [] {
      LinesOfUnlines(records);
      TrimOfTrimmed(records[|records| - 1]);
    }
  }

  // ----- the writer -----

  /** The log's lines and the two chain globals. */
  datatype Writer = Writer(records: seq<string>, prev: string, init: bool)

  datatype Event =
    | Log(fields: string, canRead: bool, canWrite: bool)
    | Restart

  /** `auditLog`, and a daemon restart. */
  function Next(k: Codec, w: Writer, e: Event): Writer {
    match e
    case Restart => w.(prev := "", init := false)
    case Log(fields, canRead, canWrite) =>
      var prev := if w.init then w.prev else if canRead then Head(k, w.records) else "";
      if canWrite then
        var line := k.render(prev, fields);
        Writer(w.records + [line], k.hash(line), true)
      else Writer(w.records, prev, true)
  }

  function After(k: Codec, start: seq<string>, events: seq<Event>): Writer {
    if events == [] then Writer(start, "", false)
    else Next(k, After(k, start, events[..|events| - 1]), events[|events| - 1])
  }

  /** The daemon's audit state: the file and the globals `auditChainPrev`, `auditChainInit`. */
  class AuditLog {
    const k: Codec
    var file: string
    var prev: string
    var init: bool
    ghost var records: seq<string>

    ghost predicate Valid()
      reads this
    {
      Faithful(k) && AllOk(records) && file == Unlines(records)
    }

    ghost function State(): Writer
      reads this
    {
      Writer(records, prev, init)
    }

    /** A daemon starting on an existing log. */
    constructor (k: Codec, ghost start: seq<string>, file: string)
      requires Faithful(k) && AllOk(start) && file == Unlines(start)
      ensures Valid() && this.k == k && State() == Writer(start, "", false)
    {
      this.k, this.file, this.prev, this.init, this.records := k, file, "", false, start;
    }

    method Append(fields: string, canRead: bool, canWrite: bool)
      requires Valid()
      modifies this
      ensures Valid() && State() == Next(k, old(State()), Log(fields, canRead, canWrite))
    {
      if !init {
        LastHashOfLog(k, records, canRead);
        prev := LastHash(k, file, canRead);
        init := true;
      }
      var line := k.render(prev, fields);
      if canWrite {
        file := file + line + "\n";
        records := records + [line];
        assert records[..|records| - 1] == old(records);
        prev := k.hash(line);
      }
    }

    method Reboot()
      requires Valid()
      modifies this
      ensures Valid() && State() == Next(k, old(State()), Restart) && file == old(file)
    {
      prev, init := "", false;
    }
  }

  // ----- the verifier accepts what the writer wrote -----

  /** What decides, from the outside, whether the chain stays whole: whether the log has a line,
      whether the chain value is seeded, and whether it was seeded blind, that is, from a log
      with lines in it that could not be read. */
  datatype Trace = Trace(nonEmpty: bool, init: bool, blind: bool, broken: bool)

  function Observe(t: Trace, e: Event): Trace {
    match e
    case Restart => t.(init := false, blind := false)
    case Log(_, canRead, canWrite) =>
      var blind := if t.init then t.blind else !canRead && t.nonEmpty;
      if canWrite then Trace(true, true, false, t.broken || blind)
      else Trace(t.nonEmpty, true, blind, t.broken)
  }

  function Watch(start: seq<string>, events: seq<Event>): Trace {
    if events == [] then Trace(start != [], false, false, false)
    else Observe(Watch(start, events[..|events| - 1]), events[|events| - 1])
  }

  ghost predicate Tracks(k: Codec, w: Writer, t: Trace) {
    && AllOk(w.records)
    && (t.nonEmpty <==> w.records != [])
    && t.init == w.init
    && (w.init ==> w.prev == if t.blind then "" else Head(k, w.records))
    && (t.blind ==> t.nonEmpty && t.init)
    && (!t.broken <==> Verifies(k, w.records))
  }

  lemma NextTracks(k: Codec, w: Writer, t: Trace, e: Event)
    requires Faithful(k) && Tracks(k, w, t)
    ensures Tracks(k, Next(k, w, e), Observe(t, e))
  {
    if e.Log? && e.canWrite {
      var prev := if w.init then w.prev else if e.canRead then Head(k, w.records) else "";
      var line := k.render(prev, e.fields);
      AppendVerifies(k, w.records, line);
      assert k.parse(line) == Chained(prev);
    }
  }

  lemma {:induction false} RunTracks(k: Codec, start: seq<string>, events: seq<Event>)
    requires Faithful(k) && AllOk(start) && Verifies(k, start)
    ensures Tracks(k, After(k, start, events), Watch(start, events))
  {
    if events != [] {
      RunTracks(k, start, events[..|events| - 1]);
      NextTracks(
        k, After(k, start, events[..|events| - 1]), Watch(start, events[..|events| - 1]), events[|events| - 1]);
    }
  }

  /** From any log that verifies, any mix of appends, failed writes and restarts leaves a log
      that verifies, exactly when no record was written after a blind seeding. */
  lemma WrittenLogVerifies(k: Codec, start: seq<string>, events: seq<Event>)
    requires Faithful(k) && AllOk(start) && Verifies(k, start)
    ensures var w := After(k, start, events);
      Verifies(k, Records(LinesOf(Unlines(w.records)))) <==> !Watch(start, events).broken
  {
    RunTracks(k, start, events);
    RecordsOfLog(After(k, start, events).records);
  }

  /** In particular when the log can always be read back. */
  lemma {:induction false} ReadableNeverBreaks(start: seq<string>, events: seq<Event>)
    requires forall i | 0 <= i < |events| && events[i].Log? :: events[i].canRead
    ensures !Watch(start, events).broken && !Watch(start, events).blind
  {
    if events != [] {
      ReadableNeverBreaks(start, events[..|events| - 1]);
    }
  }

  /** Rotating lines away from the head of a log that verifies leaves one that verifies. */
  lemma TrimmedHeadVerifies(k: Codec, records: seq<string>, n: nat)
    requires n <= |records| && Verifies(k, records)
    ensures Verifies(k, records[n..])
  {
    forall i | 0 <= i < |records| - n
      ensures RecordOk(k, records[n..], i)
    {
      assert RecordOk(k, records, n + i);
    }
  }

  // ----- tamper evidence -----

  predicate ChainedFrom(k: Codec, records: seq<string>, from: nat) {
    forall i | from <= i < |records| :: k.parse(records[i]).Chained?
  }

  /** Two logs that verify and end in the same line agree on every line that a chain of
      prev fields reaches from the end. */
  lemma {:induction false} AgreeBack(k: Codec, a: seq<string>, b: seq<string>, n: nat)
    requires Faithful(k) && Verifies(k, a) && Verifies(k, b)
    requires n < |a| && n < |b| && a[|a| - 1] == b[|b| - 1]
    requires ChainedFrom(k, a, |a| - n)
    ensures a[|a| - 1 - n..] == b[|b| - 1 - n..]
  {
    if n == 0 {
      assert a[|a| - 1..] == [a[|a| - 1]] && b[|b| - 1..] == [b[|b| - 1]];
    } else {
      AgreeBack(k, a, b, n - 1);
      var i, j := |a| - n, |b| - n;
      assert a[i] == a[i..][0] == b[j..][0] == b[j];
      assert RecordOk(k, a, i) && RecordOk(k, b, j);
      assert a[i - 1..] == [a[i - 1]] + a[i..] && b[j - 1..] == [b[j - 1]] + b[j..];
    }
  }

  predicate Suffix(a: seq<string>, b: seq<string>) {
    |a| <= |b| && a == b[|b| - |a|..]
  }

  /** Tamper evidence: whatever log the verifier accepts, if it ends in the last line of a fully
      chained one, then one of the two is the other with lines cut off its head. */
  lemma TamperEvident(k: Codec, genuine: seq<string>, found: seq<string>)
    requires Faithful(k) && Verifies(k, genuine) && Verifies(k, found) && ChainedFrom(k, genuine, 0)
    requires genuine != [] && found != [] && genuine[|genuine| - 1] == found[|found| - 1]
    ensures Suffix(genuine, found) || Suffix(found, genuine)
  {
    if |genuine| <= |found| {
      AgreeBack(k, genuine, found, |genuine| - 1);
    } else {
      AgreeBack(k, genuine, found, |found| - 1);
    }
  }

  /** A complete log, one whose first record has an empty prev, is a suffix of no longer one:
      whatever verifies against its last line is that log or the log with its head trimmed. */
  lemma OnlyTheHeadCanGo(k: Codec, genuine: seq<string>, found: seq<string>)
    requires Faithful(k) && Verifies(k, genuine) && Verifies(k, found) && ChainedFrom(k, genuine, 0)
    requires genuine != [] && found != [] && genuine[|genuine| - 1] == found[|found| - 1]
    requires k.parse(genuine[0]) == Chained("")
    ensures Suffix(found, genuine)
  {
    TamperEvident(k, genuine, found);
    assert |genuine| <= |found| ==> found[|found| - |genuine|] == genuine[0];
    assert |genuine| <= |found| ==> RecordOk(k, found, |found| - |genuine|);
  }

  // ----- what one tampering leaves unnoticed -----

  /** An edited line goes unnoticed exactly when it is JSON, its own prev, if it has one, is the hash of
      the line before it, and the record behind it, if there is one, carries no prev. */
  lemma EditVerifiesIff(k: Codec, records: seq<string>, i: nat, line: string)
    requires Faithful(k) && Verifies(k, records) && i < |records| && line != records[i]
    ensures var edited := records[i := line];
      Verifies(k, edited) <==>
        && !k.parse(line).NotJson?
        && (i > 0 && k.parse(line).Chained? ==> k.parse(line).prev == k.hash(records[i - 1]))
        && (i + 1 < |records| ==> !k.parse(records[i + 1]).Chained?)
  {
    var edited := records[i := line];
    forall j | 0 <= j < |records| && j != i && j != i + 1
      ensures RecordOk(k, edited, j)
    {
      assert RecordOk(k, records, j);
    }
    assert edited[i] == line && (i > 0 ==> edited[i - 1] == records[i - 1]);
    OwnRecordOk(k, edited, i);
    if i + 1 < |records| {
      assert RecordOk(k, records, i + 1);
      assert RecordOk(k, edited, i + 1) <==> !k.parse(records[i + 1]).Chained?;
    }
  }

  /** A line that is left out goes unnoticed exactly when it was the first, the last, before a record
      that carries no prev, or the same as the line before it. */
  lemma DeletionVerifiesIff(k: Codec, records: seq<string>, i: nat)
    requires Faithful(k) && Verifies(k, records) && i < |records|
    ensures Verifies(k, records[..i] + records[i + 1..]) <==>
      i == 0 || i + 1 == |records| || !k.parse(records[i + 1]).Chained? || records[i] == records[i - 1]
  {
    var less := records[..i] + records[i + 1..];
    forall j | 0 <= j < |less| && j != i
      ensures RecordOk(k, less, j)
    {
      assert RecordOk(k, records, if j < i then j else j + 1);
    }
    if i < |less| {
      assert RecordOk(k, records, i + 1);
      assert RecordOk(k, less, i) <==> i == 0 || !k.parse(records[i + 1]).Chained? || records[i] == records[i - 1];
    }
  }

  /** A line that is put in goes unnoticed exactly when it is JSON, its own prev, if it has one, is the
      hash of the line before it, and the record behind it, if there is one, carries no prev or the hash
      of the new line. */
  lemma InsertionVerifiesIff(k: Codec, records: seq<string>, i: nat, line: string)
    requires Faithful(k) && Verifies(k, records) && i <= |records|
    ensures var more := records[..i] + [line] + records[i..];
      Verifies(k, more) <==>
        && !k.parse(line).NotJson?
        && (i > 0 && k.parse(line).Chained? ==> k.parse(line).prev == k.hash(records[i - 1]))
        && (i < |records| && k.parse(records[i]).Chained? ==> k.parse(records[i]).prev == k.hash(line))
  {
    var more := records[..i] + [line] + records[i..];
    forall j | 0 <= j < |more| && j != i && j != i + 1
      ensures RecordOk(k, more, j)
    {
      assert RecordOk(k, records, if j < i then j else j - 1);
    }
    assert more[i] == line && (i > 0 ==> more[i - 1] == records[i - 1]);
    OwnRecordOk(k, more, i);
    if i < |records| {
      assert RecordOk(k, more, i + 1) <==>
        (k.parse(records[i]).Chained? ==> k.parse(records[i]).prev == k.hash(line)) by {
        assert RecordOk(k, records, i);
      }
    }
  }
}
