/**
 * The AI subsystem's error for HTTP 429 Too Many Requests: a fixed code, a
 * message and a source, and the two texts shown to users, chosen by the
 * message type the error was given.
 *
 * The base error class is not part of this model. What this class reads from
 * it enters as parameters: the value of the upstream source constant, the
 * localised "upstreamless" text, and the description of a code.
 */
module AiErrors {
  import opened Results

  /** ratelimit::ERROR_CODE */
  const ErrorCode: nat := 429

  /** The source an error gets when the constructor is not told one. */
  const DefaultSource: string := "internal"

  /** The base class's two message types: a minimal one for users, a detailed one with the code. */
  datatype MessageType = Minimal | Detailed

  /** A ratelimit error: the code handed to the base class, the message, the source and the message type. */
  datatype RateLimit = RateLimit(errorcode: int, errormessage: string, errorsource: string, messagetype: MessageType)

  /**
   * The constructor: the message is kept, the source is the one given or
   * "internal", and the code handed to the base class is always 429.
   */
  function NewRateLimit(errormessage: string, errorsource: Option<string>, messagetype: MessageType): (e: RateLimit)
    ensures e.errorcode == 429
    ensures e.errormessage == errormessage && e.messagetype == messagetype
    ensures errorsource.Some? ==> e.errorsource == errorsource.value
    ensures errorsource.None? ==> e.errorsource == "internal"
  {
    var source := match errorsource case Some(s) => s case None => DefaultSource;
    RateLimit(ErrorCode, errormessage, source, messagetype)
  }

  /** The message a user sees is hidden only for a minimal message about an upstream failure. */
  predicate HidesMessage(e: RateLimit, upstreamSource: string) {
    e.messagetype == Minimal && e.errorsource == upstreamSource
  }

  /** get_errormessage: the generic upstreamless text when the message is hidden, the message otherwise. */
  function GetErrorMessage(e: RateLimit, upstreamSource: string, upstreamless: string): string {
    if HidesMessage(e, upstreamSource) then upstreamless else e.errormessage
  }

  /**
   * Whenever the upstreamless text differs from the message, the message comes
   * through exactly when the type is detailed or the source is not upstream.
   */
  lemma MessageShownUnlessMinimalUpstream(e: RateLimit, upstreamSource: string, upstreamless: string)
    requires upstreamless != e.errormessage
    ensures GetErrorMessage(e, upstreamSource, upstreamless) == e.errormessage
        <==> (e.messagetype == Detailed || e.errorsource != upstreamSource)
  {
  }

  /** An error built without a source shows its message, unless "internal" is the upstream source. */
  lemma DefaultSourceShowsMessage(msg: string, t: MessageType, upstreamSource: string, upstreamless: string)
    requires upstreamSource != "internal"
    ensures GetErrorMessage(NewRateLimit(msg, None, t), upstreamSource, upstreamless) == msg
  {
  }

  /** The decimal digit for 0..9. */
  function Digit(d: nat): char
    requires d < 10
  {
    ('0' as int + d) as char
  }

  /** PHP's conversion of a non-negative integer to a string: its decimal digits. */
  function DecimalText(n: nat): (r: string)
    ensures |r| >= 1
    ensures forall i :: 0 <= i < |r| ==> '0' <= r[i] <= '9'
    decreases n
  {
    if n < 10 then [Digit(n)] else DecimalText(n / 10) + [Digit(n % 10)]
  }

  /** The number a string of decimal digits stands for. */
  function DecimalValue(s: string): nat
    requires forall i :: 0 <= i < |s| ==> '0' <= s[i] <= '9'
  {
    if s == [] then 0 else DecimalValue(s[..|s| - 1]) * 10 + (s[|s| - 1] as int - '0' as int)
  }

  /** Reading the digits back gives the number: the text names the code unambiguously. */
  lemma {:induction false} DecimalRoundTrip(n: nat)
    ensures DecimalValue(DecimalText(n)) == n
  {
    if n >= 10 {
      DecimalRoundTrip(n / 10);
      var t := DecimalText(n);
      assert t[..|t| - 1] == DecimalText(n / 10);
    }
  }

  /** The code 429 is written "429". */
  lemma ErrorCodeText()
    ensures DecimalText(ErrorCode) == "429"
  {
    assert DecimalText(4) == "4";
    assert DecimalText(42) == "42";
  }

  /** PHP's conversion of an integer to a string: a minus sign for a negative one, then the decimal digits. */
  function CodeText(code: int): string {
    if code < 0 then "-" + DecimalText(-code) else DecimalText(code)
  }

  /**
   * get_error: the description of code 429, preceded by the error's code and
   * ": " when the message type is detailed. describe stands for the base
   * class's get_errorcode_description.
   */
  function GetError(e: RateLimit, describe: int -> string): string {
    var prefix := if e.messagetype == Detailed then CodeText(e.errorcode) + ": " else "";
    prefix + describe(ErrorCode)
  }

  /** For any error, the detailed text is the minimal one with the error's code and ": " in front. */
  lemma DetailedPrefixesMinimal(e: RateLimit, describe: int -> string)
    ensures GetError(e.(messagetype := Detailed), describe)
         == CodeText(e.errorcode) + ": " + GetError(e.(messagetype := Minimal), describe)
  {
  }

  /** For an error from the constructor, the detailed text is "429: " and then the minimal one. */
  lemma DetailedIsCodeThenMinimal(msg: string, source: Option<string>, describe: int -> string)
    ensures GetError(NewRateLimit(msg, source, Detailed), describe)
         == "429: " + GetError(NewRateLimit(msg, source, Minimal), describe)
  {
    ErrorCodeText();
  }

  /** get_error reads neither the message nor the source. */
  lemma ErrorIgnoresMessageAndSource(e1: RateLimit, e2: RateLimit, describe: int -> string)
    requires e1.errorcode == e2.errorcode && e1.messagetype == e2.messagetype
    ensures GetError(e1, describe) == GetError(e2, describe)
  {
  }
}
