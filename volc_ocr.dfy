/** read_images_with_doubao_ocr.py: a Volcengine OCR request signed with HMAC-SHA256 (the
    request-signing scheme of AWS Signature Version 4: canonical request, string to sign, a key
    derived from the secret through date, region and service), and the handling of the reply.
    SHA-256, HMAC, base64, hex and urlencode are opaque functions handed in as a `Crypto`
    record; the clock reading and the HTTP POST are parameters. */
module VolcOcr {
  import opened Wrappers
  import opened Strings
  import opened StrOrder
  import opened PyDict
  import opened PyJson

  type Bytes = seq<bv8>

  /** `hashlib.sha256(m).digest()`, `hmac.new(key, m, sha256).digest()`, `.hexdigest()`'s hex
      rendering, `base64.b64encode(b).decode()` and `urllib.parse.urlencode(items)`. */
  datatype Crypto = Crypto(
    sha256: Bytes -> Bytes,
    hmac: (Bytes, Bytes) -> Bytes,
    hex: Bytes -> string,
    b64: Bytes -> string,
    urlencode: seq<(string, string)> -> string)

  const Host := "visual.volcengineapi.com"
  const Endpoint := "https://" + Host
  const Region := "cn-north-1"
  const Service := "cv"
  const Algorithm := "HMAC-SHA256"
  const ContentType := "application/x-www-form-urlencoded"

  /** A VolcengineOCR object: the two credentials it was built with (host, endpoint, region
      and service are the constants above). */
  datatype Ocr = Ocr(accessKeyId: string, accessKeySecret: string)

  // ---------------------------------------------------------------- encoding and time

  /** `str.encode('utf-8')` of one character: ASCII as itself, anything else as a lead byte
      and continuation bytes. */
  function Utf8Char(c: char): (r: Bytes)
    ensures 1 <= |r| <= 4
  {
    if c as int < 0x80 then [c as int as bv8] else Utf8Multi(c as int)
  }

  function Utf8Multi(n: nat): (r: Bytes)
    requires 0x80 <= n < 0x110000
    ensures 2 <= |r| <= 4
  {
    if n < 0x800 then [(0xC0 + n / 64) as bv8, (0x80 + n % 64) as bv8]
    else if n < 0x10000 then
      [(0xE0 + n / 4096) as bv8, (0x80 + n / 64 % 64) as bv8, (0x80 + n % 64) as bv8]
    else
      [(0xF0 + n / 262144) as bv8, (0x80 + n / 4096 % 64) as bv8,
       (0x80 + n / 64 % 64) as bv8, (0x80 + n % 64) as bv8]
  }

  function Utf8(s: string): (r: Bytes)
    ensures |s| <= |r| <= 4 * |s|
    decreases |s|
  {
    if s == [] then [] else Utf8Char(s[0]) + Utf8(s[1..])
  }

  lemma Utf8Head(s: string)
    requires s != [] && s[0] as int < 0x80
    ensures Utf8(s) == [s[0] as int as bv8] + Utf8(s[1..])
  {
  }

  /** An ASCII string encodes to one byte per character, its code. */
  lemma {:induction false} Utf8Ascii(s: string)
    requires forall i :: 0 <= i < |s| ==> s[i] as int < 0x80
    ensures |Utf8(s)| == |s|
    ensures forall i :: 0 <= i < |s| ==> Utf8(s)[i] == s[i] as int as bv8
    decreases |s|
  {
    if s != [] {
      var t := s[1..];
      Utf8Ascii(t);
      Utf8Head(s);
      forall i | 0 < i < |s| ensures Utf8(s)[i] == s[i] as int as bv8 {
        assert Utf8(s)[i] == Utf8(t)[i - 1] && s[i] == t[i - 1];
      }
    }
  }

  /** The bytes literal b"request": the string's ASCII codes, one byte each (Utf8Ascii). */
  const RequestBytes: Bytes := Utf8("request")

  /** A reading of `datetime.utcnow()`. */
  datatype Timestamp = Timestamp(year: nat, month: nat, day: nat, hour: nat, minute: nat, second: nat)

  predicate InRange(t: Timestamp) {
    1 <= t.year <= 9999 && 1 <= t.month <= 12 && 1 <= t.day <= 31
    && t.hour < 24 && t.minute < 60 && t.second < 62
  }

  /** A strftime field: the decimal digits of n, zero-padded on the left to width w. */
  function Pad(n: nat, w: nat): (r: string)
    ensures |r| >= w
  {
    var d := NatToString(n);
    if |d| >= w then d else seq(w - |d|, _ => '0') + d
  }

  function Pow10(w: nat): nat {
    if w == 0 then 1 else 10 * Pow10(w - 1)
  }

  lemma {:induction false} DigitsWithin(n: nat, w: nat)
    requires 1 <= w && n < Pow10(w)
    ensures |NatToString(n)| <= w
    decreases n
  {
    if n >= 10 {
      assert Pow10(1) == 10;
      assert w >= 2;
      DigitsWithin(n / 10, w - 1);
    }
  }

  lemma PadExact(n: nat, w: nat)
    requires 1 <= w && n < Pow10(w)
    ensures |Pad(n, w)| == w
  {
    DigitsWithin(n, w);
  }

  /** `strftime("%Y%m%dT%H%M%SZ")`. */
  function XDate(t: Timestamp): string {
    DateStamp(t) + "T" + Pad(t.hour, 2) + Pad(t.minute, 2) + Pad(t.second, 2) + "Z"
  }

  /** `strftime("%Y%m%d")`. */
  function DateStamp(t: Timestamp): string {
    Pad(t.year, 4) + Pad(t.month, 2) + Pad(t.day, 2)
  }

  /** The date stamp the key is derived from is the first eight characters of the x-date
      header: both come from the same clock reading. */
  lemma DateStampIsXDatePrefix(t: Timestamp)
    requires InRange(t)
    ensures |DateStamp(t)| == 8 && |XDate(t)| == 16
    ensures DateStamp(t) == XDate(t)[..8]
  {
    assert Pow10(2) == 100 && Pow10(4) == 10000;
    PadExact(t.year, 4);
    PadExact(t.month, 2);
    PadExact(t.day, 2);
    PadExact(t.hour, 2);
    PadExact(t.minute, 2);
    PadExact(t.second, 2);
  }

  // ---------------------------------------------------------------- canonical strings

  /** `_get_canonical_headers(content_type)`. */
  function InitialHeaders(contentType: string): seq<(string, string)> {
    Put(Put([], "content-type", contentType), "host", Host)
  }

  const QueryParams: seq<(string, string)> := [("Action", "OCRNormal"), ("Version", "2020-08-26")]

  /** `"&".join(f"{k}={v}" for k, v in sorted(query_params.items()))`. */
  function CanonicalQuery(params: seq<(string, string)>): string {
    var items := SortBy(params, PairLt);
    Join("&", seq(|items|, i requires 0 <= i < |items| => items[i].0 + "=" + items[i].1))
  }

  function HeaderLine(item: (string, string)): string {
    item.0 + ":" + item.1
  }

  function HeaderLines(items: seq<(string, string)>): seq<string> {
    seq(|items|, i requires 0 <= i < |items| => HeaderLine(items[i]))
  }

  /** The `"k:v"` lines of the sorted header items, each ended by a newline. */
  function CanonicalHeaders(headers: seq<(string, string)>): string {
    Join("\n", HeaderLines(SortBy(headers, PairLt))) + "\n"
  }

  /** `";".join(sorted(headers.keys()))`. */
  function SignedHeaders(headers: seq<(string, string)>): string {
    Join(";", SortBy(Keys(headers), StrLt))
  }

  /** The f-string of lines 97-104: method, URI, query, headers (which end in a newline of
      their own), signed header names, payload hash. */
  function CanonicalRequest(query: string, canonicalHeaders: string, signed: string, payloadHash: string)
    : string
  {
    "POST\n" + "/\n" + query + "\n" + canonicalHeaders + "\n" + signed + "\n" + payloadHash
  }

  function CredentialScope(dateStamp: string): string {
    dateStamp + "/" + Region + "/" + Service + "/request"
  }

  /** The value printed for `headers.get('x-date')`; None prints as "None". */
  function HeaderOrNone(headers: seq<(string, string)>, k: string): string {
    match Lookup(headers, k) case Some(v) => v case None => "None"
  }

  function StringToSign(cr: Crypto, xDate: string, scope: string, canonicalRequest: string): string {
    Algorithm + "\n" + xDate + "\n" + scope + "\n" + cr.hex(cr.sha256(Utf8(canonicalRequest)))
  }

  /** The key chain of lines 47-51: HMAC the secret with the date, that with the region, that
      with the service, that with b"request". */
  function SigningKey(cr: Crypto, secret: string, dateStamp: string): Bytes {
    var kDate := cr.hmac(Utf8(secret), Utf8(dateStamp));
    var kRegion := cr.hmac(kDate, Utf8(Region));
    var kService := cr.hmac(kRegion, Utf8(Service));
    cr.hmac(kService, RequestBytes)
  }

  /** Folding HMAC over a list of messages. */
  function KeyChain(cr: Crypto, key: Bytes, parts: seq<Bytes>): Bytes
    decreases |parts|
  {
    if parts == [] then key else KeyChain(cr, cr.hmac(key, parts[0]), parts[1..])
  }

  /** The signing key is the secret folded, in order, over the parts of the credential scope:
      date, region, service and b"request". */
  lemma SigningKeyIsScopeChain(cr: Crypto, secret: string, dateStamp: string)
    ensures SigningKey(cr, secret, dateStamp)
         == KeyChain(cr, Utf8(secret), [Utf8(dateStamp), Utf8(Region), Utf8(Service), RequestBytes])
  {
    KeyChainFour(cr, Utf8(secret), Utf8(dateStamp), Utf8(Region), Utf8(Service), RequestBytes);
  }

  lemma KeyChainFour(cr: Crypto, key: Bytes, a: Bytes, b: Bytes, c: Bytes, d: Bytes)
    ensures KeyChain(cr, key, [a, b, c, d]) == cr.hmac(cr.hmac(cr.hmac(cr.hmac(key, a), b), c), d)
  {
    var k1 := cr.hmac(key, a);
    var k2 := cr.hmac(k1, b);
    var k3 := cr.hmac(k2, c);
    assert [a, b, c, d][1..] == [b, c, d];
    assert [b, c, d][1..] == [c, d];
    assert [c, d][1..] == [d];
    assert KeyChain(cr, k3, [d]) == KeyChain(cr, cr.hmac(k3, d), []);
    assert KeyChain(cr, k2, [c, d]) == KeyChain(cr, k3, [d]);
    assert KeyChain(cr, k1, [b, c, d]) == KeyChain(cr, k2, [c, d]);
  }

  /** `_get_signature(date_stamp, headers, canonical_request)`: the signature, the credential
      scope and the signed header names. */
  function GetSignature(ocr: Ocr, cr: Crypto, dateStamp: string, headers: seq<(string, string)>,
                        canonicalRequest: string): (string, string, string)
  {
    var scope := CredentialScope(dateStamp);
    var toSign := StringToSign(cr, HeaderOrNone(headers, "x-date"), scope, canonicalRequest);
    var signature := cr.hex(cr.hmac(SigningKey(cr, ocr.accessKeySecret, dateStamp), Utf8(toSign)));
    (signature, scope, SignedHeaders(headers))
  }

  /** `s.replace(pat, rep)`: every leftmost non-overlapping occurrence. */
  function Replace(s: string, pat: string, rep: string): string
    requires |pat| > 0
    decreases |s|
  {
    if |s| < |pat| then s
    else if s[..|pat|] == pat then rep + Replace(s[|pat|..], pat, rep)
    else [s[0]] + Replace(s[1..], pat, rep)
  }

  lemma {:induction false} ReplaceAbsent(s: string, pat: string, rep: string)
    requires |pat| > 0 && !Contains(s, pat)
    ensures Replace(s, pat, rep) == s
    decreases |s|
  {
    if |s| >= |pat| {
      assert s[..|pat|] != pat;
      ReplaceAbsent(s[1..], pat, rep);
    }
  }

  /** The f-string of lines 113-116 after "HMAC-SHA256 ". */
  function Credentials(accessKeyId: string, scope: string, signed: string, signature: string): string {
    "Credential=" + accessKeyId + "/" + scope + "," + "SignedHeaders=" + signed + "," + "Signature=" + signature
  }

  /** Lines 112-117: the f-string with every " ," replaced by ",". */
  function Authorization(accessKeyId: string, scope: string, signed: string, signature: string): string {
    Replace(Algorithm + " " + Credentials(accessKeyId, scope, signed, signature), " ,", ",")
  }

  lemma {:induction false} SpaceCommaAt(s: string)
    requires Contains(s, " ,")
    ensures exists i :: 0 <= i < |s| - 1 && s[i] == ' ' && s[i + 1] == ','
    decreases |s|
  {
    if StartsWith(s, " ,") {
      assert s[0] == ' ' && s[1] == ',';
    } else {
      SpaceCommaAt(s[1..]);
      var i :| 0 <= i < |s[1..]| - 1 && s[1..][i] == ' ' && s[1..][i + 1] == ',';
      assert s[i + 1] == ' ' && s[i + 2] == ',';
    }
  }

  /** With no space in the key id, the date, the signed names or the signature (hex digits,
      in practice) the replace changes nothing: the header is
      `HMAC-SHA256 Credential=id/scope,SignedHeaders=sh,Signature=sig`. */
  lemma AuthorizationLayout(accessKeyId: string, dateStamp: string, signed: string, signature: string)
    requires ' ' !in accessKeyId && ' ' !in dateStamp && ' ' !in signed && ' ' !in signature
    ensures Authorization(accessKeyId, CredentialScope(dateStamp), signed, signature)
         == Algorithm + " " + Credentials(accessKeyId, CredentialScope(dateStamp), signed, signature)
  {
    var head := Algorithm;
    var rest := Credentials(accessKeyId, CredentialScope(dateStamp), signed, signature);
    var s := head + " " + rest;
    assert ' ' !in head;
    assert ' ' !in rest;
    assert rest[0] == 'C';
    if Contains(s, " ,") {
      SpaceCommaAt(s);
    }
    ReplaceAbsent(s, " ,", ",");
  }

  // ---------------------------------------------------------------- the request

  /** What requests.post is called with. */
  datatype HttpPost = HttpPost(url: string, headers: seq<(string, string)>, body: string)

  /** `urlencode(body_params)` for the one body parameter. */
  function Body(cr: Crypto, image: Bytes): string {
    cr.urlencode([("image_base64", cr.b64(image))])
  }

  function PayloadHash(cr: Crypto, body: string): string {
    cr.hex(cr.sha256(Utf8(body)))
  }

  /** The headers that are signed: the canonical two, then x-date, then x-content-sha256. */
  function HeadersToSign(cr: Crypto, image: Bytes, now: Timestamp): seq<(string, string)> {
    Put(Put(InitialHeaders(ContentType), "x-date", XDate(now)),
        "x-content-sha256", PayloadHash(cr, Body(cr, image)))
  }

  function Canonical(cr: Crypto, image: Bytes, now: Timestamp): string {
    var headers := HeadersToSign(cr, image, now);
    CanonicalRequest(CanonicalQuery(QueryParams), CanonicalHeaders(headers), SignedHeaders(headers),
                     PayloadHash(cr, Body(cr, image)))
  }

  /** The POST read_image sends for the image bytes and the clock reading. */
  function SignedPost(ocr: Ocr, cr: Crypto, image: Bytes, now: Timestamp): HttpPost {
    var body := Body(cr, image);
    var headers := HeadersToSign(cr, image, now);
    var (signature, scope, signed) := GetSignature(ocr, cr, DateStamp(now), headers, Canonical(cr, image, now));
    var withAuth := Put(headers, "authorization", Authorization(ocr.accessKeyId, scope, signed, signature));
    HttpPost(Endpoint + "?" + CanonicalQuery(QueryParams),
             Put(withAuth, "content-length", NatToString(|body|)), body)
  }

  /** StrLt facts about the header names, by their first difference. */
  lemma HeaderNameOrder()
    ensures StrLt("Action", "Version") && !StrLt("Version", "Action")
    ensures StrLt("content-type", "host") && !StrLt("host", "content-type")
    ensures StrLt("host", "x-date") && !StrLt("x-date", "host")
    ensures StrLt("host", "x-content-sha256") && !StrLt("x-content-sha256", "host")
    ensures StrLt("content-type", "x-date") && !StrLt("x-date", "content-type")
    ensures StrLt("content-type", "x-content-sha256") && !StrLt("x-content-sha256", "content-type")
    ensures StrLt("x-content-sha256", "x-date") && !StrLt("x-date", "x-content-sha256")
  {
    StrLtAt("Action", "Version", 0);
    StrLtAt("content-type", "host", 0);
    StrLtAt("host", "x-date", 0);
    StrLtAt("host", "x-content-sha256", 0);
    StrLtAt("content-type", "x-date", 0);
    StrLtAt("content-type", "x-content-sha256", 0);
    assert "x-content-sha256"[..2] == "x-date"[..2];
    StrLtAt("x-content-sha256", "x-date", 2);
    StrLtAsym("Action", "Version");
    StrLtAsym("content-type", "host");
    StrLtAsym("host", "x-date");
    StrLtAsym("host", "x-content-sha256");
    StrLtAsym("content-type", "x-date");
    StrLtAsym("content-type", "x-content-sha256");
    StrLtAsym("x-content-sha256", "x-date");
  }

  /** Sorted, the query parameters stay Action then Version. */
  lemma SortedQuery()
    ensures SortBy(QueryParams, PairLt) == QueryParams
  {
    HeaderNameOrder();
    SortTwo(("Action", "OCRNormal"), ("Version", "2020-08-26"), PairLt);
  }

  lemma QueryPairs()
    ensures CanonicalQuery(QueryParams)
         == Join("&", ["Action" + "=" + "OCRNormal", "Version" + "=" + "2020-08-26"])
  {
    SortedQuery();
    var items := QueryParams;
    var kv := seq(|items|, i requires 0 <= i < |items| => items[i].0 + "=" + items[i].1);
    assert kv[0] == "Action" + "=" + "OCRNormal";
    assert kv[1] == "Version" + "=" + "2020-08-26";
    assert kv == ["Action" + "=" + "OCRNormal", "Version" + "=" + "2020-08-26"];
  }

  /** The canonical query string. */
  lemma CanonicalQueryValue()
    ensures CanonicalQuery(QueryParams) == "Action=OCRNormal&Version=2020-08-26"
  {
    QueryPairs();
    var x, y := "Action" + "=" + "OCRNormal", "Version" + "=" + "2020-08-26";
    assert [x, y][1..] == [y];
    assert Join("&", [x, y]) == x + "&" + y;
  }

  /** In read_image the signed headers are exactly the four, in insertion order. */
  lemma HeadersToSignValue(cr: Crypto, image: Bytes, now: Timestamp)
    ensures HeadersToSign(cr, image, now) ==
      [("content-type", ContentType), ("host", Host), ("x-date", XDate(now)),
       ("x-content-sha256", PayloadHash(cr, Body(cr, image)))]
  {
    var c, h, d, x := ("content-type", ContentType), ("host", Host), ("x-date", XDate(now)),
                      ("x-content-sha256", PayloadHash(cr, Body(cr, image)));
    assert InitialHeaders(ContentType) == [c, h] by {
      assert Put([], c.0, c.1) == [c];
      assert [c][1..] == [];
      assert Put([c], h.0, h.1) == [c] + Put([], h.0, h.1);
    }
    assert [c, h][1..] == [h] && [h][1..] == [];
    assert Put([h], d.0, d.1) == [h] + Put([], d.0, d.1);
    assert Put([c, h], d.0, d.1) == [c] + Put([h], d.0, d.1) == [c, h, d];
    assert [c, h, d][1..] == [h, d] && [h, d][1..] == [d] && [d][1..] == [];
    assert Put([d], x.0, x.1) == [d] + Put([], x.0, x.1);
    assert Put([h, d], x.0, x.1) == [h] + Put([d], x.0, x.1);
    assert Put([c, h, d], x.0, x.1) == [c] + Put([h, d], x.0, x.1) == [c, h, d, x];
  }

  /** Sorting two elements already in order leaves them. */
  lemma SortTwo<T>(a: T, b: T, lt: (T, T) -> bool)
    requires !lt(b, a)
    ensures SortBy([a, b], lt) == [a, b]
  {
    assert [a, b][..1] == [a] && [a][..0] == [] && [a][1..] == [];
    assert SortBy([a], lt) == InsertBy(a, [], lt) == [a];
    assert InsertBy(b, [a], lt) == [a] + InsertBy(b, [], lt) == [a, b];
  }

  /** Sorting a, b, c, d where a, b, c are in order and d belongs between b and c. */
  lemma SortFourLastBeforeThird<T>(a: T, b: T, c: T, d: T, lt: (T, T) -> bool)
    requires !lt(b, a) && !lt(c, a) && !lt(c, b) && !lt(d, a) && !lt(d, b) && lt(d, c)
    ensures SortBy([a, b, c, d], lt) == [a, b, d, c]
  {
    SortTwo(a, b, lt);
    assert [a, b, c][..2] == [a, b];
    assert [b][1..] == [] && [a, b][1..] == [b] && [c][1..] == [] && [b, c][1..] == [c];
    assert [a, b, c][1..] == [b, c];
    assert InsertBy(c, [b], lt) == [b] + InsertBy(c, [], lt) == [b, c];
    assert InsertBy(c, [a, b], lt) == [a] + InsertBy(c, [b], lt) == [a, b, c];
    assert SortBy([a, b, c], lt) == InsertBy(c, [a, b], lt);
    assert [a, b, c, d][..3] == [a, b, c];
    assert InsertBy(d, [c], lt) == [d, c];
    assert InsertBy(d, [b, c], lt) == [b] + InsertBy(d, [c], lt) == [b, d, c];
    assert InsertBy(d, [a, b, c], lt) == [a] + InsertBy(d, [b, c], lt) == [a, b, d, c];
  }

  /** Sorting the four puts x-content-sha256 before x-date; content-type and host stay
      first. */
  lemma SortedHeaders(xDate: string, payloadHash: string)
    ensures SortBy([("content-type", ContentType), ("host", Host), ("x-date", xDate),
                    ("x-content-sha256", payloadHash)], PairLt)
         == [("content-type", ContentType), ("host", Host), ("x-content-sha256", payloadHash),
             ("x-date", xDate)]
  {
    HeaderNameOrder();
    SortFourLastBeforeThird(("content-type", ContentType), ("host", Host), ("x-date", xDate),
                            ("x-content-sha256", payloadHash), PairLt);
  }

  lemma SortedHeaderNames()
    ensures SortBy(["content-type", "host", "x-date", "x-content-sha256"], StrLt)
         == ["content-type", "host", "x-content-sha256", "x-date"]
  {
    HeaderNameOrder();
    SortFourLastBeforeThird("content-type", "host", "x-date", "x-content-sha256", StrLt);
  }

  lemma KeysFour<V>(a: (string, V), b: (string, V), c: (string, V), d: (string, V))
    ensures Keys([a, b, c, d]) == [a.0, b.0, c.0, d.0]
  {
    assert [a, b, c, d][1..] == [b, c, d] && [b, c, d][1..] == [c, d] && [c, d][1..] == [d];
    assert [d][1..] == [];
    assert Keys([d]) == [d.0];
    assert Keys([c, d]) == [c.0] + Keys([d]);
    assert Keys([b, c, d]) == [b.0] + Keys([c, d]);
    assert Keys([a, b, c, d]) == [a.0] + Keys([b, c, d]);
  }

  /** `sep.join` of four strings. */
  lemma JoinFour(sep: string, a: string, b: string, c: string, d: string)
    ensures Join(sep, [a, b, c, d]) == a + sep + b + sep + c + sep + d
  {
    assert [a, b, c, d][1..] == [b, c, d] && [b, c, d][1..] == [c, d] && [c, d][1..] == [d];
    assert Join(sep, [c, d]) == c + sep + Join(sep, [d]) == c + sep + d;
    assert Join(sep, [b, c, d]) == b + sep + Join(sep, [c, d]);
    assert Join(sep, [a, b, c, d]) == a + sep + Join(sep, [b, c, d]);
  }

  /** The signed names of the four headers, sorted. */
  lemma SignedHeadersValue(xDate: string, payloadHash: string)
    ensures SignedHeaders([("content-type", ContentType), ("host", Host), ("x-date", xDate),
                           ("x-content-sha256", payloadHash)])
         == Join(";", ["content-type", "host", "x-content-sha256", "x-date"])
  {
    KeysFour(("content-type", ContentType), ("host", Host), ("x-date", xDate),
             ("x-content-sha256", payloadHash));
    SortedHeaderNames();
  }

  lemma HeaderLinesFour(a: (string, string), b: (string, string), c: (string, string), d: (string, string))
    ensures HeaderLines([a, b, c, d]) == [HeaderLine(a), HeaderLine(b), HeaderLine(c), HeaderLine(d)]
  {
  }

  /** The header block of the four headers: one sorted `k:v` line each, every line ended by a
      newline. */
  lemma CanonicalHeadersValue(xDate: string, payloadHash: string)
    ensures CanonicalHeaders([("content-type", ContentType), ("host", Host), ("x-date", xDate),
                              ("x-content-sha256", payloadHash)])
         == HeaderLine(("content-type", ContentType)) + "\n" + HeaderLine(("host", Host)) + "\n"
            + HeaderLine(("x-content-sha256", payloadHash)) + "\n" + HeaderLine(("x-date", xDate)) + "\n"
  {
    var c, h, x, d := ("content-type", ContentType), ("host", Host), ("x-content-sha256", payloadHash),
                      ("x-date", xDate);
    SortedHeaders(xDate, payloadHash);
    HeaderLinesFour(c, h, x, d);
    JoinFour("\n", HeaderLine(c), HeaderLine(h), HeaderLine(x), HeaderLine(d));
  }

  /** The canonical request read_image signs, written out: the sorted query, the four sorted
      header lines (the last one ended by its own newline, so a blank line follows), the
      sorted names joined by ';', and the payload hash. */
  lemma CanonicalRequestValue(cr: Crypto, image: Bytes, now: Timestamp)
    ensures var ph := PayloadHash(cr, Body(cr, image));
      Canonical(cr, image, now) ==
        CanonicalRequest("Action=OCRNormal&Version=2020-08-26",
          HeaderLine(("content-type", ContentType)) + "\n" + HeaderLine(("host", Host)) + "\n"
          + HeaderLine(("x-content-sha256", ph)) + "\n" + HeaderLine(("x-date", XDate(now))) + "\n",
          Join(";", ["content-type", "host", "x-content-sha256", "x-date"]), ph)
  {
    var ph := PayloadHash(cr, Body(cr, image));
    HeadersToSignValue(cr, image, now);
    CanonicalQueryValue();
    SignedHeadersValue(XDate(now), ph);
    CanonicalHeadersValue(XDate(now), ph);
  }

  /** The x-date the string to sign prints is the header's. */
  lemma SignedXDate(cr: Crypto, image: Bytes, now: Timestamp)
    ensures HeaderOrNone(HeadersToSign(cr, image, now), "x-date") == XDate(now)
  {
    var headers := HeadersToSign(cr, image, now);
    HeadersToSignValue(cr, image, now);
    LookupAt(headers, "x-date", 2);
  }

  /** The string signed carries the x-date header of the same request, the scope
      date/cn-north-1/cv/request and the hash of the canonical request; it is signed with the
      key chain over the scope's parts. */
  lemma StringToSignValue(ocr: Ocr, cr: Crypto, image: Bytes, now: Timestamp)
    ensures var headers := HeadersToSign(cr, image, now);
      var (signature, scope, signed) := GetSignature(ocr, cr, DateStamp(now), headers, Canonical(cr, image, now));
      && scope == DateStamp(now) + "/" + "cn-north-1" + "/" + "cv" + "/request"
      && signed == Join(";", ["content-type", "host", "x-content-sha256", "x-date"])
      && signature == cr.hex(cr.hmac(
           KeyChain(cr, Utf8(ocr.accessKeySecret), [Utf8(DateStamp(now)), Utf8(Region), Utf8(Service), RequestBytes]),
           Utf8(StringToSign(cr, XDate(now), scope, Canonical(cr, image, now)))))
  {
    HeadersToSignValue(cr, image, now);
    SignedXDate(cr, image, now);
    SigningKeyIsScopeChain(cr, ocr.accessKeySecret, DateStamp(now));
    SignedHeadersValue(XDate(now), PayloadHash(cr, Body(cr, image)));
  }

  /** Adding authorization and then content-length to the four signed headers appends the
      two, in that order. */
  lemma AddedHeaders(headers: seq<(string, string)>, auth: string, len: string)
    requires Keys(headers) == ["content-type", "host", "x-date", "x-content-sha256"]
    ensures Keys(Put(Put(headers, "authorization", auth), "content-length", len))
         == ["content-type", "host", "x-date", "x-content-sha256", "authorization", "content-length"]
    ensures Lookup(Put(Put(headers, "authorization", auth), "content-length", len), "content-length")
         == Some(len)
  {
    var withAuth := Put(headers, "authorization", auth);
    PutKeys(headers, "authorization", auth);
    assert Keys(withAuth) == ["content-type", "host", "x-date", "x-content-sha256", "authorization"];
    PutKeys(withAuth, "content-length", len);
    PutLookup(withAuth, "content-length", len, "content-length");
  }

  /** The headers sent: the four signed ones, then authorization, then content-length (the
      body's length in characters); the url carries the canonical query. */
  lemma SentHeaders(ocr: Ocr, cr: Crypto, image: Bytes, now: Timestamp)
    ensures var post := SignedPost(ocr, cr, image, now);
      && Keys(post.headers) == ["content-type", "host", "x-date", "x-content-sha256", "authorization", "content-length"]
      && Lookup(post.headers, "content-length") == Some(NatToString(|post.body|))
      && post.url == Endpoint + "?" + "Action=OCRNormal&Version=2020-08-26"
      && post.body == cr.urlencode([("image_base64", cr.b64(image))])
  {
    var headers := HeadersToSign(cr, image, now);
    HeadersToSignValue(cr, image, now);
    KeysFour(("content-type", ContentType), ("host", Host), ("x-date", XDate(now)),
             ("x-content-sha256", PayloadHash(cr, Body(cr, image))));
    CanonicalQueryValue();
    var (signature, scope, signed) := GetSignature(ocr, cr, DateStamp(now), headers, Canonical(cr, image, now));
    AddedHeaders(headers, Authorization(ocr.accessKeyId, scope, signed, signature), NatToString(|Body(cr, image)|));
  }

  /** The names signed are those of the four headers; authorization and content-length, added
      after signing, are not among them. */
  lemma SignedNames(ocr: Ocr, cr: Crypto, image: Bytes, now: Timestamp)
    ensures var names := SortBy(Keys(HeadersToSign(cr, image, now)), StrLt);
      && GetSignature(ocr, cr, DateStamp(now), HeadersToSign(cr, image, now), Canonical(cr, image, now)).2
           == Join(";", names)
      && "authorization" !in names && "content-length" !in names
  {
    HeadersToSignValue(cr, image, now);
    KeysFour(("content-type", ContentType), ("host", Host), ("x-date", XDate(now)),
             ("x-content-sha256", PayloadHash(cr, Body(cr, image))));
    SortedHeaderNames();
    NotSigned();
  }

  /** The two late names differ in length from each of the four signed ones. */
  lemma NotSigned()
    ensures "authorization" !in ["content-type", "host", "x-content-sha256", "x-date"]
    ensures "content-length" !in ["content-type", "host", "x-content-sha256", "x-date"]
  {
    assert |"authorization"| == 13 && |"content-length"| == 14;
    assert |"content-type"| == 12 && |"host"| == 4 && |"x-content-sha256"| == 16 && |"x-date"| == 6;
  }

  // ---------------------------------------------------------------- the reply

  /** Lines 149-156 on the decoded reply, before the re-wrapping: an error in
      ResponseMetadata, then code 10000, then a failure with the reply's message. */
  function Classify(result: Json): Result<Json, string> {
    var hasMeta :- In("ResponseMetadata", result);
    if hasMeta then
      var meta :- Index(result, "ResponseMetadata");
      var hasError :- In("Error", meta);
      if hasError then
        var error :- Index(meta, "Error");
        var message :- Get(error, "Message", JStr("未知错误"));
        Failure("OCR识别失败: " + Str(message))
      else ByCode(result)
    else ByCode(result)
  }

  function ByCode(result: Json): Result<Json, string> {
    match result
    case JDict(ms) =>
      if GetOr(ms, "code", JNull) == JInt(10000) then
        var data :- Index(result, "data");
        Index(data, "line_texts")
      else
        Failure("OCR识别失败: " + Str(GetOr(ms, "message", JStr("未知错误"))))
    case _ => Failure("'" + TypeName(result) + "' object has no attribute 'get'")
  }

  /** The reply's ResponseMetadata.Error, when there is one. */
  function MetadataError(result: Json): Option<Json> {
    if result.JDict? then
      match Lookup(result.members, "ResponseMetadata")
      case Some(meta) =>
        if meta.JDict? then
          (match Lookup(meta.members, "Error") case Some(e) => Some(e) case None => None)
        else None
      case None => None
    else None
  }

  /** A reply in the documented shape is classified by its fields: an error in
      ResponseMetadata fails with its Message, otherwise code 10000 yields data.line_texts and
      any other code fails with the reply's message. */
  lemma ClassifyDict(result: Json)
    requires result.JDict?
    requires match Lookup(result.members, "ResponseMetadata") case Some(m) => m.JDict? case None => true
    ensures MetadataError(result).Some? && MetadataError(result).value.JDict? ==>
      Classify(result) == Failure("OCR识别失败: "
        + Str(GetOr(MetadataError(result).value.members, "Message", JStr("未知错误"))))
    ensures MetadataError(result).None? && GetOr(result.members, "code", JNull) != JInt(10000) ==>
      Classify(result) == Failure("OCR识别失败: " + Str(GetOr(result.members, "message", JStr("未知错误"))))
    ensures Classify(result).Success? <==>
      MetadataError(result).None? && GetOr(result.members, "code", JNull) == JInt(10000)
      && (match Lookup(result.members, "data")
          case Some(data) => data.JDict? && Lookup(data.members, "line_texts").Some?
          case None => false)
    ensures Classify(result).Success? ==>
      Classify(result).value == Lookup(Lookup(result.members, "data").value.members, "line_texts").value
  {
  }

  /** A reply that is not a dict, list or str cannot be looked into: the `in` test raises. */
  lemma ClassifyScalar(result: Json)
    requires result.JNull? || result.JBool? || result.JInt?
    ensures Classify(result) == Failure("argument of type '" + TypeName(result) + "' is not iterable")
  {
  }

  /** What read_image returns for the POST's outcome: the reply classified, and every failure,
      the POST's own or the classification's, re-raised as "请求失败: ..." (lines 158-159). */
  function Outcome(reply: Result<Json, string>): Result<Json, string> {
    var r := if reply.Failure? then Failure(reply.error) else Classify(reply.value);
    if r.Failure? then Failure("请求失败: " + r.error) else r
  }

  /** The image is missing, or the POST was sent and its outcome handled. */
  function ReadImageResult(ocr: Ocr, cr: Crypto, files: map<string, Bytes>, imagePath: string,
                           now: Timestamp, post: HttpPost -> Result<Json, string>)
    : Result<Json, string>
  {
    if imagePath !in files then Failure("找不到图片文件: " + imagePath)
    else Outcome(post(SignedPost(ocr, cr, files[imagePath], now)))
  }

  /** A failure of the POST or of the classification is reported with the prefix; a success
      is the classified reply. */
  lemma OutcomeSpec(reply: Result<Json, string>)
    ensures Outcome(reply).Failure? ==> StartsWith(Outcome(reply).error, "请求失败: ")
    ensures Outcome(reply).Failure? <==> reply.Failure? || Classify(reply.value).Failure?
    ensures Outcome(reply).Success? ==> Outcome(reply) == Classify(reply.value)
  {
    if Outcome(reply).Failure? {
      var e := if reply.Failure? then reply.error else Classify(reply.value).error;
      assert Outcome(reply).error == "请求失败: " + e;
      assert ("请求失败: " + e)[..|"请求失败: "|] == "请求失败: ";
    }
  }

  /** Only a missing image escapes the re-wrapping. */
  lemma ReadImageFailures(ocr: Ocr, cr: Crypto, files: map<string, Bytes>, imagePath: string,
                          now: Timestamp, post: HttpPost -> Result<Json, string>)
    ensures var r := ReadImageResult(ocr, cr, files, imagePath, now, post);
      && (imagePath !in files ==> r == Failure("找不到图片文件: " + imagePath))
      && (imagePath in files ==> r == Outcome(post(SignedPost(ocr, cr, files[imagePath], now))))
      && (imagePath in files && r.Failure? ==> StartsWith(r.error, "请求失败: "))
  {
    if imagePath in files {
      OutcomeSpec(post(SignedPost(ocr, cr, files[imagePath], now)));
    }
  }

  /** `read_image(image_path)`: the headers dict is filled in place as in the source, x-date,
      then x-content-sha256, then authorization once the request is signed, then
      content-length. */
  method ReadImage(ocr: Ocr, cr: Crypto, files: map<string, Bytes>, imagePath: string,
                   now: Timestamp, post: HttpPost -> Result<Json, string>)
    returns (r: Result<Json, string>)
    ensures r == ReadImageResult(ocr, cr, files, imagePath, now, post)
  {
    if imagePath !in files {
      return Failure("找不到图片文件: " + imagePath);
    }
    var imageBase64 := cr.b64(files[imagePath]);
    var headers := InitialHeaders(ContentType);
    headers := Put(headers, "x-date", XDate(now));
    var dateStamp := DateStamp(now);
    var encodedData := cr.urlencode([("image_base64", imageBase64)]);
    var payloadHash := cr.hex(cr.sha256(Utf8(encodedData)));
    headers := Put(headers, "x-content-sha256", payloadHash);
    var query := CanonicalQuery(QueryParams);
    var canonicalRequest :=
      CanonicalRequest(query, CanonicalHeaders(headers), SignedHeaders(headers), payloadHash);
    var (signature, scope, signed) := GetSignature(ocr, cr, dateStamp, headers, canonicalRequest);
    headers := Put(headers, "authorization", Authorization(ocr.accessKeyId, scope, signed, signature));
    var url := Endpoint + "?" + query;
    headers := Put(headers, "content-length", NatToString(|encodedData|));
    assert HttpPost(url, headers, encodedData) == SignedPost(ocr, cr, files[imagePath], now);
    var reply := post(HttpPost(url, headers, encodedData));
    if reply.Failure? {
      r := Failure("请求失败: " + reply.error);
    } else {
      r := Classify(reply.value);
      if r.Failure? {
        r := Failure("请求失败: " + r.error);
      }
    }
  }
}
