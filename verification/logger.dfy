/** The text of the records written by the request, response and cache logging
    helpers. The file handler, timestamps and the rendering of a dict as
    Python's `repr` are outside the model: a headers record carries the
    entries themselves. */
module Logger {
  import opened Wrappers
  import opened PyStr
  import opened Seqs
  import opened OrderedMap

  datatype Level = Debug | Info | Error

  datatype Record =
    | Message(level: Level, text: string)
    | HeadersDump(level: Level, headers: Entries<string, string>)

  /** How many leading characters of an authorization header survive redaction. */
  const RedactedPrefix := 20

  /** Bodies at least this long are cut. */
  const BodyLimit := 500

  const Ellipsis := "..."

  predicate IsAuthorizationKey(key: string) {
    Lower(key) == "authorization"
  }

  /** The value logged for one header: an authorization header keeps its first
      twenty characters followed by an ellipsis, even when it is shorter than
      that; every other header is logged as it is. */
  function RedactValue(key: string, value: string): (logged: string)
    ensures IsAuthorizationKey(key) ==>
      && |logged| == (if |value| < RedactedPrefix then |value| else RedactedPrefix) + |Ellipsis|
      && logged[..|logged| - |Ellipsis|] == value[..|logged| - |Ellipsis|]
      && EndsWith(logged, Ellipsis)
    ensures !IsAuthorizationKey(key) ==> logged == value
  {
    if IsAuthorizationKey(key) then Take(value, RedactedPrefix) + Ellipsis else value
  }

  /** The `safe_headers` comprehension: the same keys in the same order, each
      value passed through `RedactValue`. */
  function RedactHeaders(headers: Entries<string, string>): (safe: Entries<string, string>)
    ensures |safe| == |headers|
    ensures forall i :: 0 <= i < |safe| ==> safe[i].0 == headers[i].0
    ensures forall i :: 0 <= i < |safe| ==> safe[i].1 == RedactValue(headers[i].0, headers[i].1)
  {
    seq(|headers|, i requires 0 <= i < |headers| => (headers[i].0, RedactValue(headers[i].0, headers[i].1)))
  }

  /** Redaction keeps the dict's keys, in order. */
  lemma {:induction false} RedactHeadersKeys(headers: Entries<string, string>)
    ensures Keys(RedactHeaders(headers)) == Keys(headers)
  {
    if |headers| > 0 {
      RedactHeadersKeys(headers[1..]);
      assert RedactHeaders(headers)[1..] == RedactHeaders(headers[1..]);
    }
  }

  /** Looking a key up in the redacted dict finds the redacted form of what the
      original dict holds under that key, and nothing for an absent key. */
  lemma {:induction false} RedactHeadersGet(headers: Entries<string, string>, key: string)
    ensures Get(RedactHeaders(headers), key)
         == match Get(headers, key)
            case None => None
            case Some(v) => Some(RedactValue(key, v))
  {
    if |headers| > 0 {
      RedactHeadersGet(headers[1..], key);
      assert RedactHeaders(headers)[1..] == RedactHeaders(headers[1..]);
    }
  }

  /** Any capitalisation of `authorization` is redacted: the test is on the
      lower-cased key. */
  lemma AuthorizationSpellings(key: string, value: string)
    requires |key| == |"authorization"|
    requires forall i :: 0 <= i < |key| ==> key[i] == "authorization"[i] || key[i] == "AUTHORIZATION"[i]
    ensures IsAuthorizationKey(key)
    ensures RedactValue(key, value) == Take(value, RedactedPrefix) + Ellipsis
  {
    forall i | 0 <= i < |key| ensures Lower(key)[i] == "authorization"[i] {
      assert LowerChar("AUTHORIZATION"[i]) == "authorization"[i];
    }
    assert Lower(key) == "authorization";
  }

  /** The other two headers the backend call sends are not redacted. */
  lemma OtherHeadersNotRedacted()
    ensures !IsAuthorizationKey("x-auth-token")
    ensures !IsAuthorizationKey("Content-Type")
  {
  }

  predicate IsPayloadLine(r: Record) {
    r.Message? && StartsWith(r.text, "  Payload size: ")
  }

  /** The records of `log_request`. An absent headers dict and an empty one
      behave alike, so both are the empty sequence here; `payloadSize` is the
      optional byte count, logged only when it is truthy (present and not 0). */
  function RequestLog(httpMethod: string, url: string, headers: Entries<string, string>,
                      payloadSize: Option<int>): (records: seq<Record>)
    ensures 1 <= |records| <= 3
    ensures records[0] == Message(Info, "REQUEST: " + httpMethod + " " + url)
    ensures (exists i :: 0 <= i < |records| && records[i].HeadersDump?) <==> |headers| > 0
    ensures forall i :: 0 <= i < |records| && records[i].HeadersDump? ==>
      records[i] == HeadersDump(Debug, RedactHeaders(headers))
    ensures (exists i :: 0 <= i < |records| && IsPayloadLine(records[i]))
        <==> payloadSize.Some? && payloadSize.value != 0
    ensures |records| == 1 + (if |headers| > 0 then 1 else 0)
                           + (if payloadSize.Some? && payloadSize.value != 0 then 1 else 0)
    ensures |headers| > 0 ==> records[1] == HeadersDump(Debug, RedactHeaders(headers))
    ensures payloadSize.Some? && payloadSize.value != 0 ==>
      records[|records| - 1] == Message(Debug, "  Payload size: " + IntToString(payloadSize.value) + " bytes")
  {
    var request := Message(Info, "REQUEST: " + httpMethod + " " + url);
    var dump := if |headers| > 0 then [HeadersDump(Debug, RedactHeaders(headers))] else [];
    var size := if payloadSize.Some? && payloadSize.value != 0 then [PayloadLine(payloadSize.value)] else [];
    assert !IsPayloadLine(request) by {
      assert request.text[0] == 'R';
    }
    RecordsInThreeParts(request, dump, size);
    [request] + dump + size
  }

  /** The debug line `log_request` writes for a payload of `n` bytes. */
  function PayloadLine(n: int): (r: Record)
    ensures IsPayloadLine(r)
    ensures r == Message(Debug, "  Payload size: " + IntToString(n) + " bytes")
  {
    var prefix := "  Payload size: ";
    var text := prefix + IntToString(n) + " bytes";
    assert text[..|prefix|] == prefix;
    Message(Debug, text)
  }

  /** Where the headers record and the payload line of `log_request` sit among
      its records: each comes from its own part. */
  lemma RecordsInThreeParts(request: Record, dump: seq<Record>, size: seq<Record>)
    requires request.Message? && !IsPayloadLine(request)
    requires |dump| <= 1 && forall k :: 0 <= k < |dump| ==> dump[k].HeadersDump?
    requires |size| <= 1 && forall k :: 0 <= k < |size| ==> IsPayloadLine(size[k])
    ensures var records := [request] + dump + size;
      && records[0] == request
      && (forall i :: 0 <= i < |records| && records[i].HeadersDump? ==> records[i] in dump)
      && (forall i :: 0 <= i < |records| && IsPayloadLine(records[i]) ==> records[i] in size)
      && (|dump| > 0 ==> records[1] == dump[0])
      && (|size| > 0 ==> records[|records| - 1] == size[0])
  {
  }

  /** The body as `log_response` writes it: verbatim below the limit, otherwise
      its first 500 characters and an ellipsis. */
  function LoggedBody(body: string): (text: string)
    ensures |body| < BodyLimit ==> text == "  Body: " + body
    ensures |body| >= BodyLimit ==>
      && StartsWith(text, "  Body (truncated): ")
      && |text| == |"  Body (truncated): "| + BodyLimit + |Ellipsis|
      && text[|"  Body (truncated): "|..][..BodyLimit] == body[..BodyLimit]
      && EndsWith(text, Ellipsis)
  {
    if |body| < BodyLimit then "  Body: " + body
    else "  Body (truncated): " + body[..BodyLimit] + Ellipsis
  }

  /** The records of `log_response`. A truthy error suppresses the status and
      the body; otherwise the status is logged, followed by the body when it is
      truthy. */
  function ResponseLog(status: int, body: Option<string>, error: Option<string>): (records: seq<Record>)
    ensures error.Some? && error.value != "" ==>
      records == [Message(Error, "RESPONSE: Error - " + error.value)]
    ensures !(error.Some? && error.value != "") ==>
      && 1 <= |records| <= 2
      && records[0] == Message(Info, "RESPONSE: " + IntToString(status))
      && (|records| == 2 <==> body.Some? && body.value != "")
    ensures |records| == 2 ==> records[1] == Message(Debug, LoggedBody(body.value))
  {
    if error.Some? && error.value != "" then
      [Message(Error, "RESPONSE: Error - " + error.value)]
    else
      [Message(Info, "RESPONSE: " + IntToString(status))]
      + if body.Some? && body.value != "" then [Message(Debug, LoggedBody(body.value))] else []
  }

  /** The caller's own cut, `response.text[:1000] if response.text else None`,
      never changes what is logged, because the logger already cuts at 500. */
  lemma CallerCutIsRedundant(status: int, text: string)
    ensures ResponseLog(status, if text != "" then Some(Take(text, 1000)) else None, None)
         == ResponseLog(status, if text != "" then Some(text) else None, None)
  {
    if text != "" {
      var cut := Take(text, 1000);
      assert |cut| < BodyLimit <==> |text| < BodyLimit;
      if |text| >= BodyLimit {
        assert cut[..BodyLimit] == text[..BodyLimit];
      }
      assert LoggedBody(cut) == LoggedBody(text);
    }
  }

  /** The `log_cache` line: a HIT or MISS label when `hit` is given, none
      otherwise. */
  function CacheLog(action: string, key: string, hit: Option<bool>): (line: string)
    ensures hit == Some(true) <==> StartsWith(line, "CACHE HIT: ")
    ensures hit == Some(false) <==> StartsWith(line, "CACHE MISS: ")
    ensures hit == None <==> StartsWith(line, "CACHE: ")
    ensures EndsWith(line, action + " - " + key)
    ensures hit.None? ==> line == "CACHE: " + action + " - " + key
    ensures hit.Some? ==> line == "CACHE " + (if hit.value then "HIT" else "MISS") + ": " + action + " - " + key
  {
    var subject := action + " - " + key;
    var status := match hit
      case None => "CACHE: "
      case Some(h) => if h then "CACHE HIT: " else "CACHE MISS: ";
    assert (status + subject)[..|status|] == status;
    assert (status + subject)[|status + subject| - |subject|..] == subject;
    var line := status + subject;
    assert line[5] == status[5] && line[6] == status[6];
    assert StartsWith(line, "CACHE: ") ==> line[..7][5] == ':';
    assert StartsWith(line, "CACHE HIT: ") ==> line[..11][6] == 'H';
    assert StartsWith(line, "CACHE MISS: ") ==> line[..12][6] == 'M';
    line
  }
}
