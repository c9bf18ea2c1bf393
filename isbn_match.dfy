/**
 * The ISBN line matcher of barcode.py: the pattern `^EAN-13:(9\d{12})`
 * applied with `re.match` to one line of zbarcam output, and group 1 taken.
 *
 * MatchLine follows the pattern piece by piece (the literal, the `9`, twelve
 * `\d`), as the regular-expression engine does; IsIsbnLine states the same
 * language declaratively, and MatchLine's contract proves the two agree.
 */
module IsbnMatch {
  import opened Wrappers

  /** The literal that opens zbarcam's report of an EAN-13 symbol. */
  const Prefix: string := "EAN-13:"

  /** Length of the captured group `9\d{12}`. */
  const IsbnLength: nat := 13

  /** `\d` in a Python 2 pattern over a byte string: the ASCII digits only. */
  predicate IsDigit(c: char) {
    '0' <= c <= '9'
  }

  predicate AllDigits(s: string) {
    forall i :: 0 <= i < |s| ==> IsDigit(s[i])
  }

  /**
   * The lines `re.match('^EAN-13:(9\d{12})', line)` accepts: the prefix,
   * then a '9', then twelve digits. Nothing is said about what follows the
   * thirteenth digit: the pattern has no end anchor.
   */
  predicate IsIsbnLine(line: string) {
    && |line| >= |Prefix| + IsbnLength
    && line[..|Prefix|] == Prefix
    && line[|Prefix|] == '9'
    && AllDigits(line[|Prefix| + 1 .. |Prefix| + IsbnLength])
  }

  /** Matches the literal `lit` at the start of `s`; yields what is left of `s`. */
  function MatchLiteral(lit: string, s: string): (rest: Option<string>)
    ensures rest.Some? <==> |lit| <= |s| && s[..|lit|] == lit
    ensures rest.Some? ==> rest.value == s[|lit|..]
  {
    if lit == [] then Some(s)
    else if s != [] && s[0] == lit[0] then
      var r := MatchLiteral(lit[1..], s[1..]);
      assert |lit| <= |s| ==> s[..|lit|] == [s[0]] + s[1..][..|lit| - 1];
      r
    else None
  }

  /** Matches `\d{n}` at the start of `s`; yields the n digits consumed. */
  function MatchDigits(n: nat, s: string): (digits: Option<string>)
    ensures digits.Some? <==> n <= |s| && AllDigits(s[..n])
    ensures digits.Some? ==> digits.value == s[..n]
  {
    if n == 0 then Some([])
    else if s != [] && IsDigit(s[0]) then
      assert n <= |s| ==> s[..n] == [s[0]] + s[1..][..n - 1];
      match MatchDigits(n - 1, s[1..])
      case Some(d) => Some([s[0]] + d)
      case None => None
    else None
  }

  /**
   * `pat.match(line)` followed by `m.group(1)`: Some(isbn) when the line is
   * an ISBN line, and then isbn is exactly the thirteen characters after
   * the prefix.
   */
  function MatchLine(line: string): (isbn: Option<string>)
    ensures isbn.Some? <==> IsIsbnLine(line)
    ensures isbn.Some? ==> isbn.value == line[|Prefix| .. |Prefix| + IsbnLength]
  {
    match MatchLiteral(Prefix, line)
    case None => None
    case Some(rest) =>
      if rest != [] && rest[0] == '9' then
        assert |rest| >= IsbnLength ==>
          rest[1..][..IsbnLength - 1] == line[|Prefix| + 1 .. |Prefix| + IsbnLength];
        match MatchDigits(IsbnLength - 1, rest[1..])
        case Some(digits) => Some([rest[0]] + digits)
        case None => None
      else None
  }

  /** Every extracted ISBN is thirteen digits starting with '9'. */
  lemma ExtractedIsbnShape(line: string)
    requires MatchLine(line).Some?
    ensures var isbn := MatchLine(line).value;
      |isbn| == IsbnLength && AllDigits(isbn) && isbn[0] == '9'
  {
  }

  /**
   * Text after the thirteenth digit does not matter: more digits, a
   * newline or anything else appended to a line of at least twenty
   * characters leaves the match unchanged.
   */
  lemma MatchIgnoresSuffix(line: string, tail: string)
    requires |line| >= |Prefix| + IsbnLength
    ensures MatchLine(line + tail) == MatchLine(line)
  {
    var n := |Prefix| + IsbnLength;
    assert (line + tail)[..n] == line[..n];
    assert (line + tail)[..|Prefix|] == line[..|Prefix|];
    assert (line + tail)[|Prefix| + 1 .. n] == line[|Prefix| + 1 .. n];
  }

  /** Only the first twenty characters of a line decide the match. */
  lemma MatchDependsOnFirstTwenty(line: string)
    requires |line| >= |Prefix| + IsbnLength
    ensures MatchLine(line) == MatchLine(line[..|Prefix| + IsbnLength])
  {
    var n := |Prefix| + IsbnLength;
    assert line == line[..n] + line[n..];
    MatchIgnoresSuffix(line[..n], line[n..]);
  }

  /** A line is an ISBN line once its first twenty characters are the prefix and a 9-led digit string. */
  lemma DigitsShape(line: string, isbn: string)
    requires |isbn| == IsbnLength && isbn[0] == '9' && AllDigits(isbn)
    requires |line| >= |Prefix| + IsbnLength
    requires line[..|Prefix| + IsbnLength] == Prefix + isbn
    ensures MatchLine(line) == Some(isbn)
  {
  }

  /** A line shorter than the prefix and thirteen digits never matches. */
  lemma ShortLineNoMatch(line: string)
    requires |line| < |Prefix| + IsbnLength
    ensures MatchLine(line) == None
  {
  }

  /** A report line, newline included, yields the thirteen digits. */
  lemma MatchReportLine()
    ensures MatchLine("EAN-13:9783161484100\n") == Some("9783161484100")
  {
    var line := "EAN-13:9783161484100\n";
    DigitsShape(line, "9783161484100");
  }

  /** A fourteenth digit or any other trailing text is cut off, not rejected. */
  lemma MatchTruncatesTrailingText()
    ensures MatchLine("EAN-13:9780134685991extra") == Some("9780134685991")
  {
    var line := "EAN-13:9780134685991extra";
    DigitsShape(line, "9780134685991");
  }

  /**
   * Any 9-led EAN-13 is taken, not only the 978 and 979 Bookland codes:
   * a 977 code (an ISSN, for periodicals) yields its thirteen digits.
   */
  lemma IssnCodeAccepted()
    ensures MatchLine("EAN-13:9771234567003\n") == Some("9771234567003")
  {
    var line := "EAN-13:9771234567003\n";
    DigitsShape(line, "9771234567003");
  }

  /** An EAN-13 whose first digit is not '9' does not match. */
  lemma NotNineLedRejected()
    ensures MatchLine("EAN-13:4901234567894\n") == None
  {
  }
}
