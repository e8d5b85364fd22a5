/** The refusal written to a rejected upgrade request (`next` in src/app.ts): a JSON body
    and an HTTP/1.1 response around it. */
module Rejection {
  import opened Types
  import opened Constants

  /** The fields of the refusal body; rateLimitPeriod (always RATE_LIMIT_PERIOD_S) is present
      exactly when rateLimitLeft is. */
  datatype RejectBody = RejectBody(message: string, code: int, rateLimitLeft: Option<int>)

  /** The body `next` builds, given the charged user's new budget (None when no user record
      was found): 429 'Too many requests' once the budget is negative, 401 otherwise. */
  function BodyFor(newRate: Option<int>): (b: RejectBody)
    ensures b.code == 429 <==> newRate.Some? && newRate.value < 0
    ensures b.code == 401 <==> !(newRate.Some? && newRate.value < 0)
    ensures b.message == (if b.code == 429 then "Too many requests" else "Unauthorized access")
    ensures b.rateLimitLeft == newRate
  {
    match newRate
    case None => RejectBody("Unauthorized access", 401, None)
    case Some(left) =>
      if left < 0 then RejectBody("Too many requests", 429, Some(left))
      else RejectBody("Unauthorized access", 401, Some(left))
  }

  // ----- decimal rendering of integers, and reading it back -----

  predicate IsDigit(ch: char) {
    '0' <= ch <= '9'
  }

  function DigitChar(d: nat): (ch: char)
    requires d < 10
    ensures IsDigit(ch) && ch as int - '0' as int == d
  {
    (d + '0' as int) as char
  }

  /** The decimal digits of n, most significant first, without leading zeros. */
  function NatToString(n: nat): (s: string)
    decreases n
  {
    if n < 10 then [DigitChar(n)] else NatToString(n / 10) + [DigitChar(n % 10)]
  }

  /** JavaScript's rendering of an integral number. */
  function IntToString(n: int): string {
    if n < 0 then "-" + NatToString(-n) else NatToString(n)
  }

  predicate AllDigits(s: string) {
    forall i :: 0 <= i < |s| ==> IsDigit(s[i])
  }

  function DigitsValue(s: string): nat
    requires AllDigits(s)
    decreases |s|
  {
    if s == [] then 0 else 10 * DigitsValue(s[..|s| - 1]) + (s[|s| - 1] as int - '0' as int)
  }

  /** A reader of decimal integers, the inverse of IntToString. */
  function ParseInt(s: string): Option<int> {
    if |s| > 1 && s[0] == '-' && AllDigits(s[1..]) then Some(-(DigitsValue(s[1..]) as int))
    else if |s| > 0 && AllDigits(s) then Some(DigitsValue(s))
    else None
  }

  lemma {:induction false} NatToStringDigits(n: nat)
    ensures |NatToString(n)| > 0 && AllDigits(NatToString(n)) && DigitsValue(NatToString(n)) == n
    decreases n
  {
    if n >= 10 {
      NatToStringDigits(n / 10);
      var s := NatToString(n);
      assert s[..|s| - 1] == NatToString(n / 10);
    }
  }

  /** Reading back a rendered integer gives the integer. */
  lemma IntToStringRoundTrip(n: int)
    ensures ParseInt(IntToString(n)) == Some(n)
  {
    if n < 0 {
      NatToStringDigits(-n);
      assert IntToString(n)[1..] == NatToString(-n);
    } else {
      NatToStringDigits(n);
    }
  }

  // ----- byte length of a string -----

  /** Bytes of one character in UTF-8. */
  function CharUtf8Length(ch: char): nat {
    if ch as int < 0x80 then 1 else if ch as int < 0x800 then 2 else if ch as int < 0x10000 then 3 else 4
  }

  /** Buffer.byteLength of a string: its length in UTF-8. */
  function Utf8Length(s: string): nat
    decreases |s|
  {
    if s == [] then 0 else CharUtf8Length(s[0]) + Utf8Length(s[1..])
  }

  predicate IsAscii(s: string) {
    forall i :: 0 <= i < |s| ==> s[i] as int < 0x80
  }

  lemma {:induction false} AsciiUtf8Length(s: string)
    requires IsAscii(s)
    ensures Utf8Length(s) == |s|
    decreases |s|
  {
    if s != [] {
      AsciiUtf8Length(s[1..]);
    }
  }

  lemma IntToStringAscii(n: int)
    ensures IsAscii(IntToString(n))
  {
    if n < 0 {
      NatToStringDigits(-n);
    } else {
      NatToStringDigits(n);
    }
  }

  // ----- the JSON body -----

  /** JSON.stringify of the body object: keys message and code first, then the budget fields. */
  function Json(b: RejectBody): string {
    JsonHead(b) + JsonTail(b.rateLimitLeft) + "}"
  }

  /** The opening brace and the message and code members. */
  function JsonHead(b: RejectBody): string {
    "{\"message\":\"" + b.message + "\",\"code\":" + IntToString(b.code)
  }

  /** The rateLimitLeft and rateLimitPeriod members, present only with a budget. */
  function JsonTail(rateLimitLeft: Option<int>): string {
    match rateLimitLeft
    case None => ""
    case Some(left) => ",\"rateLimitLeft\":" + IntToString(left) + ",\"rateLimitPeriod\":" + IntToString(RATE_LIMIT_PERIOD_S)
  }

  lemma AsciiConcat(a: string, b: string)
    requires IsAscii(a) && IsAscii(b)
    ensures IsAscii(a + b)
  {
    forall i | 0 <= i < |a + b| ensures (a + b)[i] as int < 0x80 {
      if i >= |a| {
        assert (a + b)[i] == b[i - |a|];
      }
    }
  }

  lemma JsonHeadAscii(b: RejectBody)
    requires IsAscii(b.message)
    ensures IsAscii(JsonHead(b))
  {
    IntToStringAscii(b.code);
    AsciiConcat("{\"message\":\"", b.message);
    AsciiConcat("{\"message\":\"" + b.message, "\",\"code\":");
    AsciiConcat("{\"message\":\"" + b.message + "\",\"code\":", IntToString(b.code));
  }

  lemma JsonTailAscii(rateLimitLeft: Option<int>)
    ensures IsAscii(JsonTail(rateLimitLeft))
  {
    if rateLimitLeft.Some? {
      var left := rateLimitLeft.value;
      IntToStringAscii(left);
      IntToStringAscii(RATE_LIMIT_PERIOD_S);
      AsciiConcat(",\"rateLimitLeft\":", IntToString(left));
      AsciiConcat(",\"rateLimitLeft\":" + IntToString(left), ",\"rateLimitPeriod\":");
      AsciiConcat(",\"rateLimitLeft\":" + IntToString(left) + ",\"rateLimitPeriod\":", IntToString(RATE_LIMIT_PERIOD_S));
    }
  }

  /** Every body `next` sends is ASCII, so its byte length is its character count. */
  lemma JsonByteLength(newRate: Option<int>)
    ensures IsAscii(Json(BodyFor(newRate)))
    ensures Utf8Length(Json(BodyFor(newRate))) == |Json(BodyFor(newRate))|
  {
    var b := BodyFor(newRate);
    assert IsAscii(b.message) by {
      if b.code == 429 {
        assert b.message == "Too many requests";
      } else {
        assert b.message == "Unauthorized access";
      }
    }
    JsonHeadAscii(b);
    JsonTailAscii(b.rateLimitLeft);
    AsciiConcat(JsonHead(b), JsonTail(b.rateLimitLeft));
    AsciiConcat(JsonHead(b) + JsonTail(b.rateLimitLeft), "}");
    AsciiUtf8Length(Json(b));
  }

  /** When no user record was found the body is exactly the generic 401 object. */
  lemma UnknownUserBody()
    ensures Json(BodyFor(None)) == "{\"message\":\"" + "Unauthorized access" + "\",\"code\":" + "401" + "}"
  {
    assert NatToString(4) == [DigitChar(4)] == "4";
    assert NatToString(40) == NatToString(4) + [DigitChar(0)] == "40";
    assert NatToString(401) == NatToString(40) + [DigitChar(1)] == "401";
  }

  // ----- the HTTP response -----

  /** Array.prototype.join with "\r\n". */
  function JoinCrlf(lines: seq<string>): string
    decreases |lines|
  {
    if lines == [] then "" else if |lines| == 1 then lines[0] else lines[0] + "\r\n" + JoinCrlf(lines[1..])
  }

  /** The header lines, a blank line and the body. */
  function ResponseLines(body: string): seq<string> {
    ["HTTP/1.1 401 Unauthorized",
     "Content-Type: application/json",
     "Content-Length: " + IntToString(Utf8Length(body)),
     "Connection: close",
     "",
     body]
  }

  function Response(body: string): string {
    JoinCrlf(ResponseLines(body))
  }

  lemma JoinCrlfSix(a: string, b: string, c: string, d: string, e: string, f: string)
    ensures JoinCrlf([a, b, c, d, e, f]) == a + "\r\n" + (b + "\r\n" + (c + "\r\n" + (d + "\r\n" + (e + "\r\n" + f))))
  {
    var ls := [a, b, c, d, e, f];
    assert ls[1..] == [b, c, d, e, f];
    assert ls[1..][1..] == [c, d, e, f];
    assert ls[1..][1..][1..] == [d, e, f];
    assert ls[1..][1..][1..][1..] == [e, f];
    assert ls[1..][1..][1..][1..][1..] == [f];
    assert JoinCrlf([f]) == f;
    assert JoinCrlf([e, f]) == e + "\r\n" + f;
    assert JoinCrlf([d, e, f]) == d + "\r\n" + JoinCrlf([e, f]);
    assert JoinCrlf([c, d, e, f]) == c + "\r\n" + JoinCrlf([d, e, f]);
    assert JoinCrlf([b, c, d, e, f]) == b + "\r\n" + JoinCrlf([c, d, e, f]);
  }

  /** The response always carries status 401, whatever the body's code, its Content-Length reads
      back as the body's UTF-8 length, and a blank line separates the headers from the body. */
  lemma ResponseLayout(body: string)
    ensures Response(body) ==
      "HTTP/1.1 401 Unauthorized" + "\r\n" + ("Content-Type: application/json" + "\r\n"
      + ("Content-Length: " + IntToString(Utf8Length(body)) + "\r\n" + ("Connection: close" + "\r\n"
      + ("" + "\r\n" + body))))
    ensures ParseInt(IntToString(Utf8Length(body))) == Some(Utf8Length(body))
  {
    JoinCrlfSix("HTTP/1.1 401 Unauthorized", "Content-Type: application/json",
                "Content-Length: " + IntToString(Utf8Length(body)), "Connection: close", "", body);
    IntToStringRoundTrip(Utf8Length(body));
  }

  /** For the bodies `next` sends, Content-Length equals the body's character count. */
  lemma ContentLengthOfBody(newRate: Option<int>)
    ensures ParseInt(ResponseLines(Json(BodyFor(newRate)))[2][|"Content-Length: "|..])
            == Some(|Json(BodyFor(newRate))|)
  {
    JsonByteLength(newRate);
    IntToStringRoundTrip(|Json(BodyFor(newRate))|);
  }
}
