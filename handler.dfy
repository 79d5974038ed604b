/**
 * The target server's request handler (src/RequestHandler.java) as a total
 * function from (method, body, timestamp) to (status, body). The stream and
 * header handling is not modelled; `System.currentTimeMillis()` becomes the
 * `timestamp` parameter.
 */
module Handler {
  import opened Wrappers

  datatype HttpResponse = HttpResponse(status: int, body: string)

  const HealthBody := "{\"status\":\"ok\"}"
  const MethodNotAllowedBody := "{\"error\":\"Method not allowed\"}"
  const BadRequestBody := "{\"status\":\"error\",\"message\":\"Request must contain 'message' field\"}"
  const MessageKey := "\"message\""
  const SuccessPrefix := "{\"status\":\"success\",\"received\":\""
  const TimestampKey := "\",\"timestamp\":"

  // ---------------------------------------------------------------------------
  // String.contains

  predicate OccursAt(s: string, t: string, i: nat)
  {
    i + |t| <= |s| && s[i..i + |t|] == t
  }

  lemma OccursShift(s: string, t: string)
    requires |s| > 0
    ensures (exists i: nat :: OccursAt(s, t, i)) <==>
            OccursAt(s, t, 0) || exists i: nat :: OccursAt(s[1..], t, i)
  {
    if i: nat :| OccursAt(s, t, i) && i > 0 {
      assert s[1..][i - 1..i - 1 + |t|] == s[i..i + |t|];
      assert OccursAt(s[1..], t, i - 1);
    }
    if i: nat :| OccursAt(s[1..], t, i) {
      assert s[1..][i..i + |t|] == s[i + 1..i + 1 + |t|];
      assert OccursAt(s, t, i + 1);
    }
  }

  function Contains(s: string, t: string): (r: bool)
    ensures r <==> exists i: nat :: OccursAt(s, t, i)
    decreases |s|
  {
    if |s| < |t| then false
    else if s[..|t|] == t then
      assert OccursAt(s, t, 0);
      true
    else
      OccursShift(s, t);
      Contains(s[1..], t)
  }

  // ---------------------------------------------------------------------------
  // String.trim: drops leading and trailing characters up to U+0020

  function TrimLeading(s: string): (r: string)
    ensures |r| <= |s| && r == s[|s| - |r|..]
    ensures r == [] || r[0] > ' '
    ensures forall i :: 0 <= i < |s| - |r| ==> s[i] <= ' '
  {
    if s != [] && s[0] <= ' ' then TrimLeading(s[1..]) else s
  }

  function TrimTrailing(s: string): (r: string)
    ensures |r| <= |s| && r == s[..|r|]
    ensures r == [] || r[|r| - 1] > ' '
    ensures forall i :: |r| <= i < |s| ==> s[i] <= ' '
  {
    if s != [] && s[|s| - 1] <= ' ' then TrimTrailing(s[..|s| - 1]) else s
  }

  /** `trim` neither starts nor ends with a character up to U+0020. */
  function Trim(s: string): (r: string)
    ensures |r| <= |s|
    ensures r == [] || (r[0] > ' ' && r[|r| - 1] > ' ')
  {
    TrimTrailing(TrimLeading(s))
  }

  /** `trim` keeps the slice between the leading and the trailing run of
      characters up to U+0020. */
  lemma TrimIsSlice(s: string) returns (k: nat)
    ensures k + |Trim(s)| <= |s| && Trim(s) == s[k..k + |Trim(s)|]
    ensures forall i :: 0 <= i < k ==> s[i] <= ' '
    ensures forall i :: k + |Trim(s)| <= i < |s| ==> s[i] <= ' '
  {
    var lead := TrimLeading(s);
    k := |s| - |lead|;
    var r := TrimTrailing(lead);
    assert lead == s[k..] && r == lead[..|r|];
    SliceOfSuffix(s, k, |r|);
    forall i | k + |r| <= i < |s|
      ensures s[i] <= ' '
    {
      assert s[i] == lead[i - k];
    }
  }

  lemma SliceOfSuffix(s: string, k: nat, n: nat)
    requires k + n <= |s|
    ensures s[k..][..n] == s[k..k + n]
  {
  }

  /** `trim().isEmpty()` holds exactly of the bodies made of characters up to
      U+0020 only. */
  lemma TrimEmptyIffBlank(s: string)
    ensures Trim(s) == [] <==> forall i :: 0 <= i < |s| ==> s[i] <= ' '
  {
    var lead := TrimLeading(s);
    if Trim(s) == [] {
      assert lead == [];
    }
  }

  /** A body containing the key is never blank, so the `trim().isEmpty()` test
      of line 45 never decides anything. */
  lemma KeyMakesNonBlank(body: string)
    ensures Contains(body, MessageKey) ==> Trim(body) != []
  {
    if Contains(body, MessageKey) {
      var i: nat :| OccursAt(body, MessageKey, i);
      assert body[i] == body[i..i + |MessageKey|][0] == '"';
      TrimEmptyIffBlank(body);
    }
  }

  // ---------------------------------------------------------------------------
  // replace("\"", "\\\"")

  function QuoteCount(s: string): nat
  {
    if s == [] then 0 else (if s[0] == '"' then 1 else 0) + QuoteCount(s[1..])
  }

  function Escape(s: string): (r: string)
    ensures |r| == |s| + QuoteCount(s)
    ensures forall i :: 0 <= i < |r| && r[i] == '"' ==> 0 < i && r[i - 1] == '\\'
  {
    if s == [] then []
    else (if s[0] == '"' then "\\\"" else [s[0]]) + Escape(s[1..])
  }

  /** Drops the backslash of every backslash-quote pair. */
  function Unescape(t: string): string
  {
    if |t| >= 2 && t[0] == '\\' && t[1] == '"' then ['"'] + Unescape(t[2..])
    else if t == [] then []
    else [t[0]] + Unescape(t[1..])
  }

  lemma {:induction false} UnescapeEscape(s: string)
    ensures Unescape(Escape(s)) == s
  {
    if s != [] {
      var rest := Escape(s[1..]);
      UnescapeEscape(s[1..]);
      var escaped := Escape(s);
      if s[0] == '"' {
        assert escaped == ['\\', '"'] + rest;
        assert escaped[2..] == rest;
        assert Unescape(escaped) == ['"'] + Unescape(rest);
      } else {
        assert escaped == [s[0]] + rest;
        assert |rest| > 0 ==> rest[0] != '"';
        assert escaped[1..] == rest;
        assert Unescape(escaped) == [s[0]] + Unescape(rest);
      }
      assert s == [s[0]] + s[1..];
    }
  }

  // ---------------------------------------------------------------------------
  // %d of a long

  function DigitChar(d: nat): (c: char)
    requires d < 10
    ensures '0' <= c <= '9'
  {
    ('0' as int + d) as char
  }

  function DigitValue(c: char): nat
  {
    if '0' <= c <= '9' then c as int - '0' as int else 0
  }

  function NatToString(n: nat): (r: string)
    ensures |r| > 0 && forall i :: 0 <= i < |r| ==> '0' <= r[i] <= '9'
    ensures r[0] == '0' <==> n == 0
    ensures n == 0 ==> r == "0"
  {
    if n < 10 then [DigitChar(n)] else NatToString(n / 10) + [DigitChar(n % 10)]
  }

  function IntToString(n: int): (r: string)
    ensures |r| > 0 && (r[0] == '-' <==> n < 0)
    ensures r[0] != '-' ==> '0' <= r[0] <= '9'
    ensures forall i :: 0 < i < |r| ==> '0' <= r[i] <= '9'
    ensures var digits := if n < 0 then r[1..] else r;
      digits != [] && (digits[0] == '0' ==> digits == "0")
  {
    if n < 0 then "-" + NatToString(-n) else NatToString(n)
  }

  /** The decimal value of a string of digits. */
  function DigitsValue(s: string): nat
  {
    if s == [] then 0 else DigitsValue(s[..|s| - 1]) * 10 + DigitValue(s[|s| - 1])
  }

  function ParseInt(s: string): int
  {
    if |s| > 0 && s[0] == '-' then -(DigitsValue(s[1..]) as int) else DigitsValue(s)
  }

  lemma {:induction false} NatToStringRoundTrip(n: nat)
    ensures DigitsValue(NatToString(n)) == n
  {
    var r := NatToString(n);
    if n < 10 {
      assert r[..0] == [];
    } else {
      assert r[..|r| - 1] == NatToString(n / 10);
      NatToStringRoundTrip(n / 10);
    }
  }

  lemma IntToStringRoundTrip(n: int)
    ensures ParseInt(IntToString(n)) == n
  {
    if n < 0 {
      assert ("-" + NatToString(-n))[1..] == NatToString(-n);
      NatToStringRoundTrip(-n);
    } else {
      NatToStringRoundTrip(n);
    }
  }

  // ---------------------------------------------------------------------------
  // The success body and reading it back

  function SuccessBody(body: string, timestamp: int): (r: string)
    ensures |r| == |SuccessPrefix| + |body| + QuoteCount(body) + |TimestampKey| + |IntToString(timestamp)| + 1
    ensures r[..|SuccessPrefix|] == SuccessPrefix && r[|r| - 1] == '}'
  {
    SuccessPrefix + (Escape(body) + TimestampKey + IntToString(timestamp) + "}")
  }

  function LastIndexOf(s: string, c: char): (r: Option<nat>)
    ensures r.None? ==> forall j :: 0 <= j < |s| ==> s[j] != c
    ensures r.Some? ==> r.value < |s| && s[r.value] == c &&
                        forall j :: r.value < j < |s| ==> s[j] != c
  {
    if s == [] then None
    else if s[|s| - 1] == c then Some(|s| - 1)
    else LastIndexOf(s[..|s| - 1], c)
  }

  function StripPrefix(s: string, p: string): (r: Option<string>)
    ensures r.Some? ==> s == p + r.value
  {
    if |p| <= |s| && s[..|p|] == p then Some(s[|p|..]) else None
  }

  function StripSuffix(s: string, p: string): (r: Option<string>)
    ensures r.Some? ==> s == r.value + p
  {
    if |p| <= |s| && s[|s| - |p|..] == p then Some(s[..|s| - |p|]) else None
  }

  lemma SplitConcat(a: string, b: string)
    ensures (a + b)[..|a|] == a && (a + b)[|a|..] == b
  {
  }

  lemma StripPrefixOf(p: string, x: string)
    ensures StripPrefix(p + x, p) == Some(x)
  {
    assert (p + x)[..|p|] == p;
    assert (p + x)[|p|..] == x;
  }

  lemma StripSuffixOf(x: string, p: string)
    ensures StripSuffix(x + p, p) == Some(x)
  {
    assert (x + p)[|x|..] == p;
    assert (x + p)[..|x|] == x;
  }

  /** Reads the received body and the timestamp back out of a success body: the
      timestamp follows the last colon, since a rendered number holds none. */
  function ParseSuccessBody(r: string): Option<(string, int)>
  {
    match StripPrefix(r, SuccessPrefix)
    case None => None
    case Some(rest) =>
      match StripSuffix(rest, "}")
      case None => None
      case Some(inner) =>
        match LastIndexOf(inner, ':')
        case None => None
        case Some(k) =>
          match StripSuffix(inner[..k + 1], TimestampKey)
          case None => None
          case Some(escaped) => Some((Unescape(escaped), ParseInt(inner[k + 1..])))
  }

  /** Characters after the last occurrence do not move it. */
  lemma {:induction false} LastIndexOfAppend(a: string, b: string, c: char)
    requires forall j :: 0 <= j < |b| ==> b[j] != c
    ensures LastIndexOf(a + b, c) == LastIndexOf(a, c)
    decreases |b|
  {
    if b != [] {
      assert (a + b)[..|a + b| - 1] == a + b[..|b| - 1];
      LastIndexOfAppend(a, b[..|b| - 1], c);
    } else {
      assert a + b == a;
    }
  }

  lemma LastOfConcat(a: string, b: string)
    requires |b| > 0
    ensures (a + b)[|a + b| - 1] == b[|b| - 1]
  {
  }

  lemma LastIndexOfAfter(a: string, c: char, b: string)
    requires |a| > 0 && a[|a| - 1] == c
    requires forall j :: 0 <= j < |b| ==> b[j] != c
    ensures LastIndexOf(a + b, c) == Some(|a| - 1)
  {
    LastIndexOfAppend(a, b, c);
  }

  /** In an escaped body followed by the timestamp key and a rendered number,
      the last colon is the key's. */
  lemma LastColonIsTimestampKey(e: string, d: string)
    requires forall j :: 0 <= j < |d| ==> d[j] != ':'
    ensures LastIndexOf(e + TimestampKey + d, ':') == Some(|e| + |TimestampKey| - 1)
  {
    var head := e + TimestampKey;
    assert TimestampKey[|TimestampKey| - 1] == ':';
    LastOfConcat(e, TimestampKey);
    LastIndexOfAfter(head, ':', d);
  }

  /** ParseSuccessBody splits a body of the success layout into its parts. */
  lemma ParseSuccessLayout(e: string, d: string)
    requires forall j :: 0 <= j < |d| ==> d[j] != ':'
    ensures ParseSuccessBody(SuccessPrefix + (e + TimestampKey + d + "}"))
            == Some((Unescape(e), ParseInt(d)))
  {
    var head := e + TimestampKey;
    var inner := head + d;
    var rest := inner + "}";
    StripPrefixOf(SuccessPrefix, rest);
    StripSuffixOf(inner, "}");
    LastColonIsTimestampKey(e, d);
    SplitConcat(head, d);
    StripSuffixOf(e, TimestampKey);
  }

  /** The success body carries the request body and the timestamp, both
      recoverable. */
  lemma SuccessBodyRoundTrip(body: string, timestamp: int)
    ensures ParseSuccessBody(SuccessBody(body, timestamp)) == Some((body, timestamp))
  {
    var d := IntToString(timestamp);
    assert forall j :: 0 <= j < |d| ==> d[j] != ':';
    ParseSuccessLayout(Escape(body), d);
    UnescapeEscape(body);
    IntToStringRoundTrip(timestamp);
  }

  // ---------------------------------------------------------------------------
  // The handler

  /** Lines 69-72. */
  function HealthCheck(): (r: HttpResponse)
    ensures r == HttpResponse(200, HealthBody)
  {
    HttpResponse(200, HealthBody)
  }

  /** Lines 38-67: accept a body that contains the key, echoing it back. */
  function HandlePost(body: string, timestamp: int): (r: HttpResponse)
    ensures r.status == 200 <==> exists i: nat :: OccursAt(body, MessageKey, i)
    ensures r.status == 200 ==> r.body == SuccessBody(body, timestamp)
    ensures r.status == 200 ==> ParseSuccessBody(r.body) == Some((body, timestamp))
    ensures r.status != 200 ==> r == HttpResponse(400, BadRequestBody)
  {
    KeyMakesNonBlank(body);
    if Contains(body, MessageKey) && Trim(body) != [] then
      SuccessBodyRoundTrip(body, timestamp);
      HttpResponse(200, SuccessBody(body, timestamp))
    else
      HttpResponse(400, BadRequestBody)
  }

  /** Lines 12-26: dispatch on the request method. */
  function Handle(requestMethod: string, body: string, timestamp: int): (r: HttpResponse)
    ensures requestMethod == "GET" ==> r == HttpResponse(200, HealthBody)
    ensures requestMethod != "POST" && requestMethod != "GET" ==> r == HttpResponse(405, MethodNotAllowedBody)
    ensures requestMethod == "POST" ==> r == HandlePost(body, timestamp)
    ensures requestMethod == "POST" ==> (r.status == 200 <==> exists i: nat :: OccursAt(body, MessageKey, i))
    ensures requestMethod == "POST" && r.status == 200 ==> ParseSuccessBody(r.body) == Some((body, timestamp))
    ensures requestMethod == "POST" && r.status != 200 ==> r == HttpResponse(400, BadRequestBody)
    ensures r.status == 200 || r.status == 400 || r.status == 405
  {
    if requestMethod == "POST" then HandlePost(body, timestamp)
    else if requestMethod == "GET" then HealthCheck()
    else HttpResponse(405, MethodNotAllowedBody)
  }
}
