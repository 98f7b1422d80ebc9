/** `parse_error_message` (src/utils/utils.py): reads where a JSON decoding
    error happened from fixed positions at the end of its message, such as
    "line 2 column 1 (char 2)-T". */
module Utils {
  import opened Wrappers
  import opened PyStr

  /** `DecoderErrorLocation`: which of the two text fields holds the bad JSON,
      and the single-digit line, column and character position (`char` in the
      source, `charPos` here). */
  datatype DecoderErrorLocation = DecoderErrorLocation(location: string, charPos: int, column: int, line: int)

  /** The exceptions of `parse_error_message`. `UnexpectedErrorMessage` is
      declared by the source but never raised (see `NeverUnexpected`). */
  datatype ParseError =
    | IndexError                              // `msg[-k]` with `len(msg) < k`
    | ValueError(digit: char)                  // `int(c)` on a character that is not a digit
    | UnexpectedErrorMessage(message: string)

  /** The label of the field the keys are moved into (the message ends in `T`). */
  const DestinationLabel := "1. 'В который переносим ключи'"
  /** The label of the field the keys are moved from; the closing quote stands
      before the last letter, as in the source. */
  const SourceLabel := "2. 'Из которого переносим ключ'и"

  /** Python's `s[-k]`: the `k`-th character from the end, or `IndexError`
      when the string is shorter than `k`. */
  function FromEnd(s: string, k: nat): (r: Result<char, ParseError>)
    requires k >= 1
    ensures r.Success? <==> k <= |s|
    ensures r.Success? ==> r.value == s[|s| - k]
    ensures r.Failure? ==> r.error == IndexError
  {
    if k <= |s| then Success(s[|s| - k]) else Failure(IndexError)
  }

  /** Python's `int(c)` on a one-character string: the digit's value, or
      `ValueError` for any other character. */
  function DigitOf(c: char): (r: Result<int, ParseError>)
    ensures r.Success? <==> IsDigit(c)
    ensures r.Success? ==> 0 <= r.value <= 9 && r.value == DigitValue(c)
    ensures r.Failure? ==> r.error == ValueError(c)
  {
    if IsDigit(c) then Success(DigitValue(c)) else Failure(ValueError(c))
  }

  /** `parse_error_message`: the diagnostic prints first index `msg[-4]`
      and `msg[-12]` (only the indexing is modelled, not the output), so a
      message that short raises before anything else; then the arguments of
      `DecoderErrorLocation` are evaluated in order — the location from
      `msg[-1]`, `char` from `msg[-4]`, `column` from `msg[-12]` and `line`
      from `msg[-21]` — and the first failing step raises its error. */
  function ParseErrorMessage(msg: string): (r: Result<DecoderErrorLocation, ParseError>)
    ensures r.Success? <==>
      |msg| >= 21 && IsDigit(msg[|msg| - 4]) && IsDigit(msg[|msg| - 12]) && IsDigit(msg[|msg| - 21])
    ensures r.Success? ==>
      && r.value.location == (if msg[|msg| - 1] == 'T' then DestinationLabel else SourceLabel)
      && r.value.charPos == msg[|msg| - 4] as int - '0' as int
      && r.value.column == msg[|msg| - 12] as int - '0' as int
      && r.value.line == msg[|msg| - 21] as int - '0' as int
      && 0 <= r.value.charPos <= 9 && 0 <= r.value.column <= 9 && 0 <= r.value.line <= 9
  {
    var c4 :- FromEnd(msg, 4);
    var c12 :- FromEnd(msg, 12);
    var last := msg[|msg| - 1];
    var location := if last == 'T' then DestinationLabel else SourceLabel;
    var charPos :- DigitOf(c4);
    var column :- DigitOf(c12);
    var c21 :- FromEnd(msg, 21);
    var line :- DigitOf(c21);
    Success(DecoderErrorLocation(location, charPos, column, line))
  }

  /** The error raised, in the order the positions are read: a message
      shorter than 12 characters fails in the prints, before any digit is
      converted. */
  lemma ParseErrorMessageErrors(msg: string)
    ensures |msg| < 12 ==> ParseErrorMessage(msg) == Failure(IndexError)
    ensures |msg| >= 12 && !IsDigit(msg[|msg| - 4]) ==> ParseErrorMessage(msg) == Failure(ValueError(msg[|msg| - 4]))
    ensures |msg| >= 12 && IsDigit(msg[|msg| - 4]) && !IsDigit(msg[|msg| - 12]) ==>
      ParseErrorMessage(msg) == Failure(ValueError(msg[|msg| - 12]))
    ensures |msg| >= 12 && IsDigit(msg[|msg| - 4]) && IsDigit(msg[|msg| - 12]) && |msg| < 21 ==>
      ParseErrorMessage(msg) == Failure(IndexError)
    ensures |msg| >= 21 && IsDigit(msg[|msg| - 4]) && IsDigit(msg[|msg| - 12]) && !IsDigit(msg[|msg| - 21]) ==>
      ParseErrorMessage(msg) == Failure(ValueError(msg[|msg| - 21]))
  {
  }

  /** The `except` branch is dead: `UnexpectedErrorMessage` is never raised. */
  lemma NeverUnexpected(msg: string)
    ensures ParseErrorMessage(msg).Failure? ==> !ParseErrorMessage(msg).error.UnexpectedErrorMessage?
  {
  }

  /** Only the characters at offsets -1, -4, -12 and -21 matter: two messages
      of the same length that agree there give the same result. */
  lemma OnlyFourPositionsMatter(a: string, b: string)
    requires |a| == |b|
    requires |a| >= 1 ==> a[|a| - 1] == b[|b| - 1]
    requires |a| >= 4 ==> a[|a| - 4] == b[|b| - 4]
    requires |a| >= 12 ==> a[|a| - 12] == b[|b| - 12]
    requires |a| >= 21 ==> a[|a| - 21] == b[|b| - 21]
    ensures ParseErrorMessage(a) == ParseErrorMessage(b)
  {
  }

  /** The example in the source's docstring and its module-level call. */
  lemma Example()
    ensures ParseErrorMessage("line 2 column 1 (char 2)-T")
      == Success(DecoderErrorLocation(DestinationLabel, 2, 1, 2))
  {
    var msg := "line 2 column 1 (char 2)-T";
    assert |msg| == 26;
    assert msg[25] == 'T' && msg[22] == '2' && msg[14] == '1' && msg[5] == '2';
  }
}
