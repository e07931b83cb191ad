/** The errors a round trip can end in, by cause, and `safeToRetry`, which sees only their texts. */
module NetErrors {
  import opened Text

  /** The causes, with the texts that Go's `net`, `io` and `json` packages give them. */
  datatype Cause =
    | EndOfFile
    | UnexpectedEof
    | Reset
    | BrokenPipe
    | LocallyClosed
    | Deadline               // the read's own deadline
    | ConnTimedOut           // ETIMEDOUT: the peer stopped answering
    | BadReply(why: string)  // a reply line that is not JSON
    | Other(why: string)

  /** `place` is what Go puts before the cause: the operation and the two addresses. */
  datatype NetError = NetError(place: string, cause: Cause)

  function Phrase(cause: Cause): string {
    match cause
    case EndOfFile => "EOF"
    case UnexpectedEof => "unexpected EOF"
    case Reset => "connection reset by peer"
    case BrokenPipe => "broken pipe"
    case LocallyClosed => "use of closed network connection"
    case Deadline => "i/o timeout"
    case ConnTimedOut => "connection timed out"
    case BadReply(why) => why
    case Other(why) => why
  }

  function Message(err: NetError): string {
    err.place + Phrase(err.cause)
  }

  /** The connection was closed or broken; nothing more will come. */
  predicate Closing(cause: Cause) {
    cause.EndOfFile? || cause.UnexpectedEof? || cause.Reset? || cause.BrokenPipe? || cause.LocallyClosed?
  }

  predicate StandsAt(sub: string, s: string, i: nat) {
    i + |sub| <= |s| && s[i..i + |sub|] == sub
  }

  predicate Occurs(sub: string, s: string) {
    exists i | 0 <= i <= |s| :: StandsAt(sub, s, i)
  }

  /** No error of another cause reads like a closed connection: neither the addresses before it nor the
      text of an unreadable reply hold one of these phrases. */
  predicate Plausible(err: NetError) {
    !Closing(err.cause) ==>
      && !Occurs("EOF", Message(err))
      && !Occurs("connection reset", Message(err))
      && !Occurs("broken pipe", Message(err))
      && !Occurs("use of closed", Message(err))
  }

  /** `safeToRetry` of a non-nil error */
  predicate SafeToRetry(err: NetError) {
    var s := Message(err);
    if Contains(s, "timeout") || Contains(s, "deadline exceeded") then false
    else
      || err.cause.EndOfFile?
      || Contains(s, "EOF")
      || Contains(s, "connection reset")
      || Contains(s, "broken pipe")
      || Contains(s, "use of closed")
  }

  lemma {:induction false} ContainsIff(s: string, sub: string)
    ensures Contains(s, sub) <==> Occurs(sub, s)
  {
    if Occurs(sub, s) {
      var i :| 0 <= i <= |s| && StandsAt(sub, s, i);
      ContainsAt(s, sub, i);
    }
    if Contains(s, sub) {
      OccursWhere(s, sub);
    }
  }

  lemma {:induction false} OccursWhere(s: string, sub: string)
    requires Contains(s, sub)
    ensures Occurs(sub, s)
  {
    if sub <= s {
      assert StandsAt(sub, s, 0);
    } else {
      OccursWhere(s[1..], sub);
      var i :| 0 <= i <= |s[1..]| && StandsAt(sub, s[1..], i);
      assert s[i + 1..i + 1 + |sub|] == s[1..][i..i + |sub|];
      assert StandsAt(sub, s, i + 1);
    }
  }

  lemma PhraseOccurs(err: NetError, phrase: string, i: nat)
    requires i + |phrase| <= |Phrase(err.cause)| && Phrase(err.cause)[i..i + |phrase|] == phrase
    ensures Contains(Message(err), phrase)
  {
    var k := |err.place| + i;
    assert Message(err)[k..k + |phrase|] == phrase;
    ContainsAt(Message(err), phrase, k);
  }

  /** An error is retried exactly when the connection was closed or broken and nothing in its text speaks
      of a timeout: never after a deadline, never after ETIMEDOUT, never after an unreadable reply. */
  lemma SafeToRetryIff(err: NetError)
    requires Plausible(err)
    ensures SafeToRetry(err) <==>
      Closing(err.cause) && !Occurs("timeout", Message(err)) && !Occurs("deadline exceeded", Message(err))
  {
    var s := Message(err);
    ContainsIff(s, "timeout");
    ContainsIff(s, "deadline exceeded");
    ContainsIff(s, "EOF");
    ContainsIff(s, "connection reset");
    ContainsIff(s, "broken pipe");
    ContainsIff(s, "use of closed");
    if Closing(err.cause) {
      ClosingReads(err);
    }
  }

  lemma ClosingReads(err: NetError)
    requires Closing(err.cause)
    ensures var s := Message(err);
      || err.cause.EndOfFile? || Contains(s, "EOF") || Contains(s, "connection reset")
      || Contains(s, "broken pipe") || Contains(s, "use of closed")
  {
    match err.cause
    case EndOfFile =>
    case UnexpectedEof => PhraseOccurs(err, "EOF", 11);
    case Reset => PhraseOccurs(err, "connection reset", 0);
    case BrokenPipe => PhraseOccurs(err, "broken pipe", 0);
    case LocallyClosed => PhraseOccurs(err, "use of closed", 0);
  }

  lemma LacksLetter(s: string, sub: string, c: char)
    requires c in sub && c !in s
    ensures !Occurs(sub, s)
  {
    var k :| 0 <= k < |sub| && sub[k] == c;
    forall i | 0 <= i <= |s|
      ensures !StandsAt(sub, s, i)
    {
      assert i + |sub| <= |s| ==> s[i + k] == s[i..i + |sub|][k];
    }
  }

  /** Neither kind of timeout reads like a closed connection, so both are among the errors above. */
  lemma TimeoutsArePlausible(cause: Cause)
    requires cause.Deadline? || cause.ConnTimedOut?
    ensures Plausible(NetError("", cause)) && !SafeToRetry(NetError("", cause))
  {
    var err := NetError("", cause);
    assert Message(err) == Phrase(cause);
    TimeoutLetters(cause);
    TimeoutText(err, Phrase(cause));
  }

  lemma TimeoutLetters(cause: Cause)
    requires cause.Deadline? || cause.ConnTimedOut?
    ensures var s := Phrase(cause); 'E' !in s && 'r' !in s && 'b' !in s && 's' !in s
  {
  }

  lemma TimeoutText(err: NetError, s: string)
    requires !Closing(err.cause) && Message(err) == s && 'E' !in s && 'r' !in s && 'b' !in s && 's' !in s
    ensures Plausible(err) && !SafeToRetry(err)
  {
    TextWithoutPhrase(s);
    SafeToRetryIff(err);
  }

  lemma TextWithoutPhrase(s: string)
    requires 'E' !in s && 'r' !in s && 'b' !in s && 's' !in s
    ensures !Occurs("EOF", s) && !Occurs("connection reset", s)
    ensures !Occurs("broken pipe", s) && !Occurs("use of closed", s)
  {
    LacksLetter(s, "EOF", 'E');
    LacksLetter(s, "connection reset", 'r');
    LacksLetter(s, "broken pipe", 'b');
    LacksLetter(s, "use of closed", 's');
  }

  /** A plain end of file is retried. */
  lemma EndOfFileIsSafe()
    ensures Plausible(NetError("", EndOfFile)) && SafeToRetry(NetError("", EndOfFile))
  {
    var err := NetError("", EndOfFile);
    assert Message(err) == "EOF";
    LacksLetter("EOF", "timeout", 't');
    LacksLetter("EOF", "deadline exceeded", 'd');
    SafeToRetryIff(err);
  }
}
