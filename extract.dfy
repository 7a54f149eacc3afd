/**
 * Result shaping of `fetch_and_parse_article`: the HTTP exchange and the
 * article extractor are inputs, and the function turns what they produced
 * into either a cleaned `{title, text}` or a `{url, error}` record. It never
 * raises: every exception becomes an error record.
 */
module Extract {
  import opened Wrappers
  import opened Sanitizer

  /** Text is cut to this many characters before it is cleaned. */
  const MaxTextLength: nat := 10000

  /** The only status that leads to parsing. */
  const HttpOk: int := 200

  /** The two dict shapes the worker returns. */
  datatype ArticleExtract =
    | Success(title: string, text: string)
    | Failure(url: string, error: string)

  /**
   * What happened after a 200 response: reading or parsing the body raised
   * (with the exception's `str`), or the extractor produced a title and a
   * text.
   */
  datatype Body =
    | BodyRaised(message: string)
    | Parsed(title: string, text: string)

  /**
   * What the GET produced: an exception before a status was available
   * (connection failure, timeout), or a status with what followed it.
   */
  datatype FetchOutcome =
    | RequestRaised(message: string)
    | Response(status: int, body: Body)

  /** Python's slice `s[:n]`: the first `n` characters, or all when fewer. */
  function Truncate(s: string, n: nat): (r: string)
    ensures |r| == if |s| <= n then |s| else n
    ensures r == s[..|r|]
  {
    if |s| <= n then s else s[..n]
  }

  predicate IsDigit(c: char) {
    '0' as int <= c as int <= '9' as int
  }

  function DigitChar(d: nat): (c: char)
    requires d < 10
    ensures IsDigit(c) && c as int - '0' as int == d
  {
    ('0' as int + d) as char
  }

  /** Decimal text of a natural number, as `str()` writes it. */
  function NatToDecimal(n: nat): (s: string)
    ensures |s| >= 1
    ensures forall i :: 0 <= i < |s| ==> IsDigit(s[i])
    ensures |s| > 1 ==> s[0] != '0'
  {
    if n < 10 then [DigitChar(n)] else NatToDecimal(n / 10) + [DigitChar(n % 10)]
  }

  /** Decimal text of an integer, as `str()` or an f-string writes it. */
  function IntToDecimal(i: int): (s: string)
    ensures s != [] && (s[0] == '-' <==> i < 0)
    ensures var digits := if i < 0 then s[1..] else s;
      && digits != []
      && (forall k :: 0 <= k < |digits| ==> IsDigit(digits[k]))
      && (|digits| > 1 ==> digits[0] != '0')
  {
    if i < 0 then "-" + NatToDecimal(-i) else NatToDecimal(i)
  }

  /** The value of a string of decimal digits. */
  function DecimalValue(s: string): nat
    requires forall i :: 0 <= i < |s| ==> IsDigit(s[i])
  {
    if s == [] then 0
    else
      assert IsDigit(s[|s| - 1]);
      10 * DecimalValue(s[..|s| - 1]) + (s[|s| - 1] as int - '0' as int)
  }

  /** The value of an optionally signed decimal string. */
  function IntValue(s: string): int
    requires s != [] && s[0] == '-' ==> forall i :: 1 <= i < |s| ==> IsDigit(s[i])
    requires s == [] || s[0] != '-' ==> forall i :: 0 <= i < |s| ==> IsDigit(s[i])
  {
    if s != [] && s[0] == '-' then -(DecimalValue(s[1..]) as int) else DecimalValue(s)
  }

  lemma {:induction false} NatToDecimalRoundTrip(n: nat)
    ensures DecimalValue(NatToDecimal(n)) == n
  {
    if n >= 10 {
      NatToDecimalRoundTrip(n / 10);
      var s := NatToDecimal(n);
      assert s[..|s| - 1] == NatToDecimal(n / 10);
    }
  }

  lemma IntToDecimalRoundTrip(i: int)
    ensures IntValue(IntToDecimal(i)) == i
  {
    if i < 0 {
      NatToDecimalRoundTrip(-i);
      assert IntToDecimal(i)[1..] == NatToDecimal(-i);
    } else {
      NatToDecimalRoundTrip(i);
    }
  }

  /** The body of `fetch_and_parse_article` once the I/O is an input. */
  function FetchAndParse(url: string, outcome: FetchOutcome): (r: ArticleExtract)
    ensures r.Success? <==> outcome.Response? && outcome.status == HttpOk && outcome.body.Parsed?
    ensures r.Failure? ==> r.url == url
    ensures r.Success? ==> |r.text| <= MaxTextLength
  {
    match outcome
    case RequestRaised(message) => Failure(url, message)
    case Response(status, body) =>
      if status != HttpOk then Failure(url, "HTTP " + IntToDecimal(status))
      else
        match body
        case BodyRaised(message) => Failure(url, message)
        case Parsed(title, text) =>
          Success(CleanText(Some(title)), CleanText(Some(Truncate(text, MaxTextLength))))
  }

  /**
   * A status other than 200 gives an error record naming the URL whose
   * message is "HTTP " followed by the status, which can be read back, and
   * the body is not looked at.
   */
  lemma HttpErrorNamesStatus(url: string, status: int, body: Body)
    requires status != HttpOk
    ensures var r := FetchAndParse(url, Response(status, body));
      && r == FetchAndParse(url, Response(status, BodyRaised("")))
      && r == Failure(url, "HTTP " + IntToDecimal(status))
      && IntValue(r.error[5..]) == status
  {
    var r := FetchAndParse(url, Response(status, body));
    assert r.error[5..] == IntToDecimal(status);
    IntToDecimalRoundTrip(status);
  }

  /** Any exception becomes an error record carrying its message. */
  lemma ExceptionsBecomeRecords(url: string, status: int, message: string)
    ensures FetchAndParse(url, RequestRaised(message)) == Failure(url, message)
    ensures status == HttpOk ==>
      FetchAndParse(url, Response(status, BodyRaised(message))) == Failure(url, message)
  {
  }

  /**
   * A successful extract holds the cleaned title and the cleaned first
   * 10000 characters of the text: both pure ASCII, neither starting nor
   * ending with whitespace, and the text is no longer than 10000.
   */
  lemma SuccessIsCleaned(url: string, title: string, text: string)
    ensures var r := FetchAndParse(url, Response(HttpOk, Parsed(title, text)));
      && r == Success(CleanText(Some(title)), CleanText(Some(text[..if |text| <= MaxTextLength then |text| else MaxTextLength])))
      && |r.text| <= MaxTextLength
      && (forall i :: 0 <= i < |r.title| ==> IsAscii(r.title[i]))
      && (forall i :: 0 <= i < |r.text| ==> IsAscii(r.text[i]))
  {
  }

  /**
   * The title is cleaned but not cut: an ASCII title without surrounding
   * whitespace is returned whole, whatever its length, while a text of the
   * same form is cut to its first 10000 characters.
   */
  lemma TitleNotTruncated(url: string, title: string, text: string)
    requires forall i :: 0 <= i < |title| ==> IsAscii(title[i]) && !IsSpace(title[i])
    requires forall i :: 0 <= i < |text| ==> IsAscii(text[i]) && !IsSpace(text[i])
    ensures var r := FetchAndParse(url, Response(HttpOk, Parsed(title, text)));
      && r.title == title
      && r.text == Truncate(text, MaxTextLength)
  {
    CleanTextKeepsCleanText(title);
    CleanTextKeepsCleanText(Truncate(text, MaxTextLength));
  }
}
