/** Errors of the bulk client and the failure class each one is negatively acknowledged with.
    The class of a failed bulk request is recovered from its message text. */
module Failures {
  import opened Text

  datatype ElasticsearchError =
    | Http
    | BulkFailed(retries: nat, message: string)
    | AuthenticationFailed
    | StartupValidation
    | Serialization
    | PayloadTooLarge

  datatype FailureClass = Transient | Rejected | Fatal

  function Severity(c: FailureClass): nat {
    match c
    case Transient => 1
    case Rejected => 2
    case Fatal => 3
  }

  predicate StartsWith(s: string, prefix: string) {
    |prefix| <= |s| && s[..|prefix|] == prefix
  }

  predicate OccursAt(s: string, part: string, i: nat) {
    i + |part| <= |s| && s[i..i + |part|] == part
  }

  predicate Contains(s: string, part: string) {
    exists i | 0 <= i <= |s| :: OccursAt(s, part, i)
  }

  const RECOVERABLE_PHRASE := "recoverable status (429/500/503)"

  function Classify(err: ElasticsearchError): FailureClass {
    match err
    case AuthenticationFailed => Fatal
    case Http => Transient
    case BulkFailed(_, message) =>
      if StartsWith(message, "HTTP 429") || StartsWith(message, "HTTP 500") || StartsWith(message, "HTTP 502")
         || StartsWith(message, "HTTP 503") || StartsWith(message, "HTTP 504")
         || StartsWith(message, "network error") || Contains(message, RECOVERABLE_PHRASE)
      then Transient
      else Rejected
    case Serialization => Rejected
    case PayloadTooLarge => Rejected
    case StartupValidation => Rejected
  }

  predicate IsTransientStatus(status: nat) {
    status == 500 || status == 429 || status == 503 || status == 502 || status == 504
  }

  // ---------------------------------------------------------------- messages

  /** `phrase` is the reason phrase the HTTP library prints after the code. */
  function StatusLine(status: nat, phrase: string): string {
    "HTTP " + Decimal(status) + " " + phrase
  }

  function TransientMessage(status: nat, phrase: string, attempt: nat): string {
    StatusLine(status, phrase) + " after " + Decimal(attempt) + " attempts"
  }

  function OtherStatusMessage(status: nat, phrase: string, text: string): string {
    StatusLine(status, phrase) + ": " + text
  }

  function NetworkMessage(attempt: nat, detail: string): string {
    "network error after " + Decimal(attempt) + " attempts: " + detail
  }

  function RecoverableMessage(count: nat, maxRetries: nat): string {
    (Decimal(count) + " items failed with ") + RECOVERABLE_PHRASE + (" after " + Decimal(maxRetries) + " retries")
  }

  lemma ContainsMiddle(a: string, part: string, b: string)
    ensures Contains(a + part + b, part)
  {
    assert OccursAt(a + part + b, part, |a|);
  }

  /** A part that starts with a character absent from `a` is found in `a + b` only inside `b`. */
  lemma ContainsSkips(a: string, b: string, part: string)
    requires part != "" && part[0] !in a
    ensures Contains(a + b, part) <==> Contains(b, part)
  {
    if Contains(a + b, part) {
      var i :| 0 <= i <= |a + b| && OccursAt(a + b, part, i);
      assert (a + b)[i] == (a + b)[i..i + |part|][0];
      assert (a + b)[i..i + |part|] == b[i - |a|..i - |a| + |part|];
      assert OccursAt(b, part, i - |a|);
    }
    if Contains(b, part) {
      var i :| 0 <= i <= |b| && OccursAt(b, part, i);
      assert (a + b)[|a| + i..|a| + i + |part|] == b[i..i + |part|];
      assert OccursAt(a + b, part, |a| + i);
    }
  }

  lemma TransientHead(status: nat)
    requires IsTransientStatus(status)
    ensures var head := "HTTP " + Decimal(status);
            head == "HTTP 429" || head == "HTTP 500" || head == "HTTP 502" || head == "HTTP 503" || head == "HTTP 504"
  {
    hide Decimal;
    StatusDigits(status);
    var d := Decimal(status);
    assert d == [d[0], d[1], d[2]];
    assert "HTTP " + d == ['H', 'T', 'T', 'P', ' ', d[0], d[1], d[2]];
  }

  lemma StatusDigits(status: nat)
    requires IsTransientStatus(status)
    ensures var d := Decimal(status);
            && |d| == 3
            && if status == 429 then d[0] == '4' && d[1] == '2' && d[2] == '9'
               else d[0] == '5' && d[1] == '0' && d[2] == Digit(status - 500)
  {
    hide Decimal;
    ThreeDigits(status);
  }

  lemma TransientMessageIsTransient(status: nat, phrase: string, attempt: nat, retries: nat)
    requires IsTransientStatus(status)
    ensures Classify(BulkFailed(retries, TransientMessage(status, phrase, attempt))) == Transient
  {
    var head := "HTTP " + Decimal(status);
    var message := TransientMessage(status, phrase, attempt);
    assert StartsWith(message, head) by {
      assert message == head + (" " + phrase + " after " + Decimal(attempt) + " attempts");
    }
    TransientHead(status);
  }

  lemma NetworkMessageIsTransient(attempt: nat, detail: string, retries: nat)
    ensures Classify(BulkFailed(retries, NetworkMessage(attempt, detail))) == Transient
  {
    var rest := " after " + Decimal(attempt) + " attempts: " + detail;
    assert NetworkMessage(attempt, detail) == "network error" + rest;
  }

  lemma RecoverableMessageIsTransient(count: nat, maxRetries: nat, retries: nat)
    ensures Classify(BulkFailed(retries, RecoverableMessage(count, maxRetries))) == Transient
  {
    ContainsMiddle(Decimal(count) + " items failed with ", RECOVERABLE_PHRASE, " after " + Decimal(maxRetries) + " retries");
  }

  /** A message that opens with another status has none of the prefixes of transient failures. */
  lemma OtherHead(status: nat, message: string)
    requires 100 <= status < 1000 && !IsTransientStatus(status)
    requires |message| >= 8 && message[..8] == "HTTP " + Decimal(status)
    ensures !StartsWith(message, "HTTP 429") && !StartsWith(message, "HTTP 500") && !StartsWith(message, "HTTP 502")
    ensures !StartsWith(message, "HTTP 503") && !StartsWith(message, "HTTP 504") && !StartsWith(message, "network error")
  {
    ThreeDigitsInjective(status, message[..8]);
    assert message[0] == 'H';
  }

  lemma NoPhraseInHead(status: nat)
    ensures RECOVERABLE_PHRASE[0] !in "HTTP " + Decimal(status) + " "
  {
    assert RECOVERABLE_PHRASE[0] == 'r';
    assert 'r' !in "HTTP " && 'r' !in " ";
    assert 'r' !in Decimal(status);
  }

  /** A status outside the retried five is meant to be a rejection. It is one exactly when the
      server's own words do not contain the phrase the client uses for exhausted retries. */
  lemma OtherStatusIsRejectedIff(status: nat, phrase: string, text: string, retries: nat)
    requires 100 <= status < 1000 && !IsTransientStatus(status)
    ensures Classify(BulkFailed(retries, OtherStatusMessage(status, phrase, text))) == Rejected
       <==> !Contains(phrase + ": " + text, RECOVERABLE_PHRASE)
  {
    hide StartsWith, Contains, Decimal;
    ThreeDigits(status);
    var head := "HTTP " + Decimal(status) + " ";
    var message := OtherStatusMessage(status, phrase, text);
    assert message == head + (phrase + ": " + text);
    assert message[..8] == "HTTP " + Decimal(status);
    OtherHead(status, message);
    NoPhraseInHead(status);
    ContainsSkips(head, phrase + ": " + text, RECOVERABLE_PHRASE);
  }

  /** Witness: a bad request whose reason quotes the phrase is classified transient. */
  lemma QuotedPhraseIsTransient(retries: nat)
    ensures Classify(BulkFailed(retries, OtherStatusMessage(400, "Bad Request", RECOVERABLE_PHRASE))) == Transient
  {
    hide Contains;
    var text := "Bad Request" + ": " + RECOVERABLE_PHRASE;
    ContainsMiddle("Bad Request" + ": ", RECOVERABLE_PHRASE, "");
    assert text + "" == text;
    OtherStatusIsRejectedIff(400, "Bad Request", RECOVERABLE_PHRASE, retries);
  }

  lemma ThreeDigits(n: nat)
    requires 100 <= n < 1000
    ensures Decimal(n) == [Digit(n / 100), Digit(n / 10 % 10), Digit(n % 10)]
  {
    assert Decimal(n) == Decimal(n / 10) + [Digit(n % 10)];
    assert Decimal(n / 10) == Decimal(n / 10 / 10) + [Digit(n / 10 % 10)];
    assert n / 10 / 10 == n / 100;
  }

  lemma ThreeDigitsInjective(n: nat, head: string)
    requires 100 <= n < 1000 && head == "HTTP " + Decimal(n)
    ensures head == "HTTP 429" ==> n == 429
    ensures head == "HTTP 500" ==> n == 500
    ensures head == "HTTP 502" ==> n == 502
    ensures head == "HTTP 503" ==> n == 503
    ensures head == "HTTP 504" ==> n == 504
  {
    ThreeDigits(n);
    var d := Decimal(n);
    assert head[5] == d[0] && head[6] == d[1] && head[7] == d[2];
    DigitInjective(n / 100, n / 10 % 10, n % 10);
  }

  lemma DigitInjective(a: nat, b: nat, c: nat)
    requires a < 10 && b < 10 && c < 10
    ensures forall x: nat | x < 10 :: (Digit(a) == Digit(x) ==> a == x) && (Digit(b) == Digit(x) ==> b == x) && (Digit(c) == Digit(x) ==> c == x)
  {
  }
}
