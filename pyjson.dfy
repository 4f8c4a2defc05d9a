/** The Python values that `response.json()` produces and `json.dump` writes, with what the
    scripts do to them: `in`, `.get`, `[...]`, truthiness and `str()`, and each operation's
    CPython error message when it is applied to the wrong type. Floating-point numbers are not
    part of this model. */
module PyJson {
  import opened Wrappers
  import opened Strings
  import opened PyDict

  datatype Json =
    | JNull
    | JBool(b: bool)
    | JInt(i: int)
    | JStr(s: string)
    | JList(items: seq<Json>)
    | JDict(members: seq<(string, Json)>)

  /** `type(v).__name__`. */
  function TypeName(v: Json): string {
    match v
    case JNull => "NoneType"
    case JBool(_) => "bool"
    case JInt(_) => "int"
    case JStr(_) => "str"
    case JList(_) => "list"
    case JDict(_) => "dict"
  }

  /** `bool(v)`: None, False, 0 and empty containers are false. */
  predicate Truthy(v: Json) {
    match v
    case JNull => false
    case JBool(b) => b
    case JInt(i) => i != 0
    case JStr(s) => s != ""
    case JList(items) => items != []
    case JDict(ms) => ms != []
  }

  /** `k in v`. */
  function In(k: string, v: Json): (r: Result<bool, string>)
    ensures r.Failure? <==> !(v.JDict? || v.JList? || v.JStr?)
  {
    match v
    case JDict(ms) => Success(Lookup(ms, k).Some?)
    case JList(items) => Success(JStr(k) in items)
    case JStr(s) => Success(Contains(s, k))
    case _ => Failure("argument of type '" + TypeName(v) + "' is not iterable")
  }

  /** The values `len` accepts. */
  predicate Sized(v: Json) {
    v.JList? || v.JDict? || v.JStr?
  }

  /** `len(v)`: the number of items, keys or characters; TypeError for anything else. */
  function Len(v: Json): (r: Result<nat, string>)
    ensures r.Success? <==> Sized(v)
    ensures r.Failure? ==> r.error == "object of type '" + TypeName(v) + "' has no len()"
  {
    match v
    case JList(items) => Success(|items|)
    case JDict(ms) => Success(|ms|)
    case JStr(s) => Success(|s|)
    case _ => Failure("object of type '" + TypeName(v) + "' has no len()")
  }

  /** `v.get(k, default)`. */
  function Get(v: Json, k: string, default: Json): (r: Result<Json, string>)
    ensures r.Failure? <==> !v.JDict?
  {
    match v
    case JDict(ms) => Success(match Lookup(ms, k) case Some(x) => x case None => default)
    case _ => Failure("'" + TypeName(v) + "' object has no attribute 'get'")
  }

  /** `v[k]` with a str key; a missing key raises KeyError, whose `str()` is the key's repr. */
  function Index(v: Json, k: string): (r: Result<Json, string>)
  {
    match v
    case JDict(ms) =>
      (match Lookup(ms, k) case Some(x) => Success(x) case None => Failure(ReprStr(k)))
    case JList(_) => Failure("list indices must be integers or slices, not str")
    case JStr(_) => Failure("string indices must be integers, not 'str'")
    case _ => Failure("'" + TypeName(v) + "' object is not subscriptable")
  }

  /** Indexing succeeds exactly when `in` says the key is in the dict, and then agrees with
      `.get`. */
  lemma IndexAgrees(v: Json, k: string, default: Json)
    ensures Index(v, k).Success? <==> v.JDict? && In(k, v) == Success(true)
    ensures Index(v, k).Success? ==> Get(v, k, default) == Index(v, k)
    ensures v.JDict? && In(k, v) == Success(false) ==> Get(v, k, default) == Success(default)
  {
  }

  function HexDigit(n: nat): (c: char)
    requires n < 16
  {
    "0123456789abcdef"[n]
  }

  /** The escape `repr` writes for a character of a quoted str; non-ASCII characters are
      taken to be printable. */
  function ReprChar(c: char, quote: char): string {
    if c == '\\' then "\\\\"
    else if c == quote then ['\\', quote]
    else if c == '\n' then "\\n"
    else if c == '\r' then "\\r"
    else if c == '\t' then "\\t"
    else if c as int < 0x20 || c as int == 0x7f then
      "\\x" + [HexDigit(c as int / 16), HexDigit(c as int % 16)]
    else [c]
  }

  function ReprBody(s: string, quote: char): string
    decreases |s|
  {
    if s == [] then "" else ReprChar(s[0], quote) + ReprBody(s[1..], quote)
  }

  /** `repr(s)`: single quotes, unless s holds a single quote and no double quote. */
  function ReprStr(s: string): (r: string)
  {
    var quote := if '\'' in s && '"' !in s then '"' else '\'';
    [quote] + ReprBody(s, quote) + [quote]
  }

  /** `repr(v)`. */
  function Repr(v: Json): string
    decreases v
  {
    match v
    case JNull => "None"
    case JBool(b) => if b then "True" else "False"
    case JInt(i) => IntToString(i)
    case JStr(s) => ReprStr(s)
    case JList(items) =>
      "[" + Join(", ", seq(|items|, i requires 0 <= i < |items| => Repr(items[i]))) + "]"
    case JDict(ms) =>
      "{" + Join(", ", seq(|ms|, i requires 0 <= i < |ms| => MemberRepr(ms[i], v))) + "}"
  }

  function MemberRepr(m: (string, Json), parent: Json): string
    requires m < parent
    decreases parent, 0
  {
    ReprStr(m.0) + ": " + Repr(m.1)
  }

  /** `str(v)`, which is what an f-string prints: a str as it is, anything else as its repr. */
  function Str(v: Json): string {
    if v.JStr? then v.s else Repr(v)
  }

  /** The escape `json.dump(..., ensure_ascii=False)` writes for a character of a string:
      the quote, the backslash and the control characters, nothing else. */
  function JsonEscapeChar(c: char): string {
    if c == '"' then "\\\""
    else if c == '\\' then "\\\\"
    else if c == '\n' then "\\n"
    else if c == '\r' then "\\r"
    else if c == '\t' then "\\t"
    else if c as int == 8 then "\\b"
    else if c as int == 12 then "\\f"
    else if c as int < 0x20 then "\\u00" + [HexDigit(c as int / 16), HexDigit(c as int % 16)]
    else [c]
  }

  function JsonEscape(s: string): string
    decreases |s|
  {
    if s == [] then "" else JsonEscapeChar(s[0]) + JsonEscape(s[1..])
  }

  function HexValue(c: char): Option<nat> {
    if '0' <= c <= '9' then Some(c as int - '0' as int)
    else if 'a' <= c <= 'f' then Some(c as int - 'a' as int + 10)
    else if 'A' <= c <= 'F' then Some(c as int - 'A' as int + 10)
    else None
  }

  /** The reading side: the characters a JSON string body denotes (surrogate pairs are not
      decoded). */
  function JsonUnescape(t: string): Option<string>
    decreases |t|
  {
    if t == [] then Some("")
    else if t[0] == '"' then None
    else if t[0] != '\\' then
      match JsonUnescape(t[1..]) case Some(rest) => Some([t[0]] + rest) case None => None
    else if |t| < 2 then None
    else
      var e := t[1];
      if e == 'u' then
        if |t| < 6 then None
        else
          match (HexValue(t[2]), HexValue(t[3]), HexValue(t[4]), HexValue(t[5]))
          case (Some(a), Some(b), Some(c), Some(d)) =>
            var n := ((a * 16 + b) * 16 + c) * 16 + d;
            if 0xD800 <= n < 0xE000 then None
            else
              (match JsonUnescape(t[6..])
               case Some(rest) => Some([n as char] + rest)
               case None => None)
          case _ => None
      else
        var c: Option<char> :=
          if e == '"' then Some('"') else if e == '\\' then Some('\\')
          else if e == '/' then Some('/') else if e == 'n' then Some('\n')
          else if e == 'r' then Some('\r') else if e == 't' then Some('\t')
          else if e == 'b' then Some(8 as char) else if e == 'f' then Some(12 as char)
          else None;
        match (c, JsonUnescape(t[2..]))
        case (Some(x), Some(rest)) => Some([x] + rest)
        case _ => None
  }

  lemma HexRoundTrip(n: nat)
    requires n < 16
    ensures HexValue(HexDigit(n)) == Some(n)
  {
  }

  lemma EscapeCharThenRest(c: char, rest: string)
    ensures JsonUnescape(JsonEscapeChar(c) + rest) ==
      match JsonUnescape(rest) case Some(r) => Some([c] + r) case None => None
  {
    var t := JsonEscapeChar(c) + rest;
    var n := c as int;
    if n < 0x20 && c != '\n' && c != '\r' && c != '\t' && n != 8 && n != 12 {
      HexRoundTrip(n / 16);
      HexRoundTrip(n % 16);
      assert t[2] == '0' && t[3] == '0' && t[4] == HexDigit(n / 16) && t[5] == HexDigit(n % 16);
      assert t[6..] == rest;
      assert ((0 * 16 + 0) * 16 + n / 16) * 16 + n % 16 == n;
      assert n as char == c;
    } else if |JsonEscapeChar(c)| == 2 {
      assert t[2..] == rest;
    } else {
      assert t[1..] == rest;
    }
  }

  /** Reading back what `json.dump` wrote for a string gives the string. */
  lemma {:induction false} JsonEscapeRoundTrip(s: string)
    ensures JsonUnescape(JsonEscape(s)) == Some(s)
    decreases |s|
  {
    if s != [] {
      JsonEscapeRoundTrip(s[1..]);
      EscapeCharThenRest(s[0], JsonEscape(s[1..]));
      assert [s[0]] + s[1..] == s;
    }
  }

  /** Two spaces per level. */
  function Indent(level: nat): string {
    seq(2 * level, _ => ' ')
  }

  /** `json.dumps(v, ensure_ascii=False, indent=2)` of a value nested `level` deep: a
      non-empty container puts each element on its own line, one level further in, separated
      by ",", with the closing bracket on a line of its own. */
  function Dump(v: Json, level: nat): string
    decreases v
  {
    match v
    case JNull => "null"
    case JBool(b) => if b then "true" else "false"
    case JInt(i) => IntToString(i)
    case JStr(s) => "\"" + JsonEscape(s) + "\""
    case JList(items) =>
      if items == [] then "[]"
      else
        "[\n"
        + Join(",\n", seq(|items|, i requires 0 <= i < |items| => Indent(level + 1) + Dump(items[i], level + 1)))
        + "\n" + Indent(level) + "]"
    case JDict(ms) =>
      if ms == [] then "{}"
      else
        "{\n"
        + Join(",\n", seq(|ms|, i requires 0 <= i < |ms| => MemberDump(ms[i], v, level + 1)))
        + "\n" + Indent(level) + "}"
  }

  function MemberDump(m: (string, Json), parent: Json, level: nat): string
    requires m < parent
    decreases parent, 0
  {
    Indent(level) + "\"" + JsonEscape(m.0) + "\": " + Dump(m.1, level)
  }
}
