/** What genre_scraper_agentql.py and genre_scraper_playwright.py share: the eight detail
    fields and their Chinese labels, the `max_count` truncation of the card list, and the two
    output files, the JSON document and the CSV table that `save_to_json` and `save_to_csv`
    write (the two scripts define these identically). */
module Genres {
  import opened Wrappers
  import opened Strings
  import opened PyDict
  import opened PyJson
  import opened PyList
  import opened Arith

  /** `headers_map`: each detail field and the label the page and the CSV header use for it. */
  const HeadersMap: seq<(string, string)> := [
    ("genre_name", "音乐风格"),
    ("genre_name_cn", "中文翻译"),
    ("origin", "来源"),
    ("features", "特点"),
    ("instruments", "乐器"),
    ("performance_style", "演奏形式"),
    ("emotion", "适合表达的情感"),
    ("bpm_range", "推荐BPM范围")
  ]

  // ---------------------------------------------------------------- max_count

  /** `total_count` and `cards` after `if max_count is not None: total_count =
      min(total_count, max_count); cards = cards[:total_count]`. */
  function Limit<C>(cards: seq<C>, maxCount: Option<int>): (int, seq<C>) {
    match maxCount
    case None => (|cards|, cards)
    case Some(m) =>
      var total := Min(|cards|, m);
      (total, Slice(cards, 0, total))
  }

  /** Without a limit, or with a non-negative one, the kept cards are the first
      min(len, max_count) and their number is the total; a negative limit makes the total
      negative while the slice keeps all but the last -max_count cards. */
  lemma LimitSpec<C>(cards: seq<C>, maxCount: Option<int>)
    ensures maxCount.None? ==> Limit(cards, maxCount) == (|cards|, cards)
    ensures maxCount.Some? && maxCount.value >= 0 ==>
      var n := Min(|cards|, maxCount.value);
      Limit(cards, maxCount) == (n, cards[..n])
    ensures maxCount.Some? && maxCount.value < 0 ==>
      Limit(cards, maxCount) == (maxCount.value, cards[..Max(0, |cards| + maxCount.value)])
  {
    if maxCount.Some? {
      TakeSpec(cards, Min(|cards|, maxCount.value));
    }
  }

  // ---------------------------------------------------------------- save_to_json

  /** `json.dump({"music_styles": data}, f, ensure_ascii=False, indent=2)`. */
  function JsonText(data: seq<Json>): string {
    Dump(JDict([("music_styles", JList(data))]), 0)
  }

  // ---------------------------------------------------------------- save_to_csv

  /** csv.writer (the excel dialect, QUOTE_MINIMAL) quotes a field that holds the delimiter, the
      quote character or a character of the line terminator. */
  predicate NeedsQuotes(s: string) {
    exists k :: 0 <= k < |s| && s[k] in {',', '"', '\r', '\n'}
  }

  /** Every quote doubled. */
  function DoubleQuotes(s: string): string
    decreases |s|
  {
    if s == [] then "" else QuoteChar(s[0]) + DoubleQuotes(s[1..])
  }

  function QuoteChar(c: char): string {
    if c == '"' then "\"\"" else [c]
  }

  /** One field as csv.writer writes it. */
  function CsvField(s: string): string {
    if NeedsQuotes(s) then "\"" + DoubleQuotes(s) + "\"" else s
  }

  function CsvFields(fields: seq<string>): (r: seq<string>)
    ensures |r| == |fields|
    decreases |fields|
  {
    if fields == [] then [] else [CsvField(fields[0])] + CsvFields(fields[1..])
  }

  /** A record without its line terminator: the fields joined by ",", except that a record of
      one empty field is written `""` so that it does not read as an empty line. */
  function RecordBody(fields: seq<string>): string {
    if fields == [""] then "\"\"" else Join(",", CsvFields(fields))
  }

  /** `writer.writerow(fields)`: the record and "\r\n". */
  function Record(fields: seq<string>): string {
    RecordBody(fields) + "\r\n"
  }

  /** What csv.writer writes for a value: None as the empty field, a str as it is, anything
      else as `str()` of it. */
  function CsvValue(v: Json): string {
    if v.JNull? then "" else Str(v)
  }

  function CsvValues(vs: seq<Json>): (r: seq<string>)
    ensures |r| == |vs|
    decreases |vs|
  {
    if vs == [] then [] else [CsvValue(vs[0])] + CsvValues(vs[1..])
  }

  /** `style.values()`, which only a dict has. */
  function StyleValues(style: Json): Result<seq<string>, string> {
    if style.JDict? then Success(CsvValues(Values(style.members)))
    else Failure("'" + TypeName(style) + "' object has no attribute 'values'")
  }

  /** The header and the first k records have been written as `acc`; the rest of lines 76-77
      writes one record per remaining style, and stops at the first that is not a dict. */
  function RecordsFrom(data: seq<Json>, k: nat, acc: string): Result<string, string>
    requires k <= |data|
    decreases |data| - k
  {
    if k == |data| then Success(acc)
    else
      match StyleValues(data[k])
      case Failure(e) => Failure(e)
      case Success(row) => RecordsFrom(data, k + 1, acc + Record(row))
  }

  /** The file save_to_csv writes: "utf-8-sig" puts the byte order mark first, then the header
      of the labels and the records of the styles. */
  function CsvText(data: seq<Json>): Result<string, string> {
    RecordsFrom(data, 0, "\U{FEFF}" + Record(Values(HeadersMap)))
  }

  method SaveToCsv(data: seq<Json>) returns (r: Result<string, string>)
    ensures r == CsvText(data)
  {
    var text := "\U{FEFF}" + Record(Values(HeadersMap));
    for k := 0 to |data|
      invariant RecordsFrom(data, k, text) == CsvText(data)
    {
      var row := StyleValues(data[k]);
      if row.Failure? {
        return Failure(row.error);
      }
      text := text + Record(row.value);
    }
    return Success(text);
  }

  /** The record of each style, when every style is a dict. */
  function StyleRecordList(data: seq<Json>): (r: seq<string>)
    requires forall i :: 0 <= i < |data| ==> data[i].JDict?
    ensures |r| == |data|
  {
    seq(|data|, i requires 0 <= i < |data| => Record(CsvValues(Values(data[i].members))))
  }

  lemma {:induction false} RecordsFromOk(data: seq<Json>, k: nat, acc: string)
    requires k <= |data|
    ensures RecordsFrom(data, k, acc).Success? <==> forall i :: k <= i < |data| ==> data[i].JDict?
    decreases |data| - k
  {
    if k < |data| && data[k].JDict? {
      RecordsFromOk(data, k + 1, acc + Record(StyleValues(data[k]).value));
    }
  }

  lemma {:induction false} RecordsFromText(data: seq<Json>, k: nat, acc: string)
    requires k <= |data| && forall i :: 0 <= i < |data| ==> data[i].JDict?
    ensures RecordsFrom(data, k, acc) == Success(acc + Concat(StyleRecordList(data)[k..]))
    decreases |data| - k
  {
    var l := StyleRecordList(data);
    if k < |data| {
      RecordsFromText(data, k + 1, acc + l[k]);
      assert l[k..][1..] == l[k + 1..];
      assert Concat(l[k..]) == l[k] + Concat(l[k + 1..]);
      assert acc + l[k] + Concat(l[k + 1..]) == acc + (l[k] + Concat(l[k + 1..]));
    } else {
      assert l[k..] == [];
      assert acc + Concat([]) == acc;
    }
  }

  // ---------------------------------------------------------------- reading a record back

  /** The characters of a quoted field up to its closing quote, and what follows it. */
  function ParseQuoted(t: string): Option<(string, string)>
    decreases |t|
  {
    if t == [] then None
    else if t[0] == '"' then
      if |t| >= 2 && t[1] == '"' then
        match ParseQuoted(t[2..]) case Some((f, rest)) => Some(("\"" + f, rest)) case None => None
      else Some(("", t[1..]))
    else
      match ParseQuoted(t[1..]) case Some((f, rest)) => Some(([t[0]] + f, rest)) case None => None
  }

  /** An unquoted field runs up to the next ",". */
  function ParseBare(t: string): (r: (string, string))
    ensures r.0 + r.1 == t
    decreases |t|
  {
    if t == [] || t[0] == ',' then ("", t)
    else var (f, rest) := ParseBare(t[1..]); ([t[0]] + f, rest)
  }

  function ParseField(t: string): Option<(string, string)> {
    if t != [] && t[0] == '"' then ParseQuoted(t[1..]) else Some(ParseBare(t))
  }

  /** The fields of a record body: each field ends at the end or at a ",". */
  function ParseFields(t: string): Option<seq<string>>
    decreases |t|
  {
    match ParseField(t)
    case None => None
    case Some((f, rest)) =>
      if rest == [] then Some([f])
      else if rest[0] != ',' || |rest| > |t| then None
      else
        match ParseFields(rest[1..]) case Some(fs) => Some([f] + fs) case None => None
  }

  /** How a CSV reader takes a record body apart; an empty line holds no field. */
  function ParseRecord(t: string): Option<seq<string>> {
    if t == [] then Some([]) else ParseFields(t)
  }

  predicate FieldEnd(rest: string) {
    rest == [] || rest[0] == ','
  }

  /** A character written inside quotes reads back as itself. */
  lemma QuotedChar(c: char, u: string)
    ensures ParseQuoted(QuoteChar(c) + u)
         == match ParseQuoted(u) case Some((f, r)) => Some(([c] + f, r)) case None => None
  {
    if c == '"' {
      assert (QuoteChar(c) + u)[2..] == u;
    } else {
      assert (QuoteChar(c) + u)[1..] == u;
    }
  }

  lemma {:induction false} QuotedThenRest(s: string, rest: string)
    requires FieldEnd(rest)
    ensures ParseQuoted(DoubleQuotes(s) + "\"" + rest) == Some((s, rest))
    decreases |s|
  {
    if s == [] {
      assert DoubleQuotes(s) + "\"" + rest == "\"" + rest;
    } else {
      QuotedThenRest(s[1..], rest);
      var u := DoubleQuotes(s[1..]) + "\"" + rest;
      assert DoubleQuotes(s) + "\"" + rest == QuoteChar(s[0]) + u;
      QuotedChar(s[0], u);
      assert [s[0]] + s[1..] == s;
    }
  }

  lemma {:induction false} BareThenRest(s: string, rest: string)
    requires ',' !in s && FieldEnd(rest)
    ensures ParseBare(s + rest) == (s, rest)
    decreases |s|
  {
    if s != [] {
      assert s[0] != ',' && ',' !in s[1..];
      assert (s + rest)[1..] == s[1..] + rest;
      BareThenRest(s[1..], rest);
      assert [s[0]] + s[1..] == s;
    } else {
      assert s + rest == rest;
    }
  }

  /** A field that needs no quotes holds no "," and does not start with a quote. */
  lemma BareField(s: string)
    requires !NeedsQuotes(s)
    ensures ',' !in s && (s == [] || s[0] != '"')
  {
    forall k | 0 <= k < |s| ensures s[k] != ',' && s[k] != '"' {
      assert s[k] !in {',', '"', '\r', '\n'};
    }
  }

  /** Reading a written field back gives the field and leaves what follows it. */
  lemma FieldThenRest(s: string, rest: string)
    requires FieldEnd(rest)
    ensures ParseField(CsvField(s) + rest) == Some((s, rest))
  {
    if NeedsQuotes(s) {
      var t := CsvField(s) + rest;
      assert t == "\"" + (DoubleQuotes(s) + "\"" + rest);
      QuotedThenRest(s, rest);
    } else {
      BareField(s);
      BareThenRest(s, rest);
    }
  }

  /** Reading back the fields joined by "," gives the fields. */
  lemma {:induction false} FieldsRoundTrip(fields: seq<string>)
    requires fields != []
    ensures ParseFields(Join(",", CsvFields(fields))) == Some(fields)
    decreases |fields|
  {
    var q := CsvFields(fields);
    assert q == [CsvField(fields[0])] + CsvFields(fields[1..]);
    JoinCons(",", CsvField(fields[0]), CsvFields(fields[1..]));
    if |fields| == 1 {
      assert Join(",", q) == CsvField(fields[0]) + "";
      FieldThenRest(fields[0], "");
      assert fields == [fields[0]];
    } else {
      var tail := Join(",", CsvFields(fields[1..]));
      assert Join(",", q) == CsvField(fields[0]) + ("," + tail);
      FieldThenRest(fields[0], "," + tail);
      FieldsRoundTrip(fields[1..]);
      assert ("," + tail)[1..] == tail;
      assert [fields[0]] + fields[1..] == fields;
    }
  }

  /** Every record csv.writer writes reads back as the fields it was given, the header and the
      styles' values alike. */
  lemma RecordRoundTrip(fields: seq<string>)
    ensures ParseRecord(RecordBody(fields)) == Some(fields)
  {
    if fields == [""] {
      var t := "\"\"";
      assert t[1..] == "\"" && t[1..][1..] == "";
    } else if fields != [] {
      FieldsRoundTrip(fields);
      var q := CsvFields(fields);
      if |fields| == 1 {
        assert fields[0] != "";
        assert Join(",", q) == CsvField(fields[0]);
        assert CsvField(fields[0]) != "" by {
          if NeedsQuotes(fields[0]) {
            assert |CsvField(fields[0])| >= 2;
          }
        }
      } else {
        JoinCons(",", q[0], q[1..]);
        assert [q[0]] + q[1..] == q;
      }
    }
  }

  /** save_to_csv fails exactly when a style is not a dict; otherwise the text is the byte
      order mark, the header record of the eight labels in order, and the records of the styles
      in the order of the data. */
  lemma CsvTextSpec(data: seq<Json>)
    ensures CsvText(data).Success? <==> forall i :: 0 <= i < |data| ==> data[i].JDict?
    ensures CsvText(data).Success? ==>
      CsvText(data).value == "\U{FEFF}" + Record(Values(HeadersMap)) + Concat(StyleRecordList(data))
  {
    RecordsFromOk(data, 0, "\U{FEFF}" + Record(Values(HeadersMap)));
    if forall i :: 0 <= i < |data| ==> data[i].JDict? {
      RecordsFromText(data, 0, "\U{FEFF}" + Record(Values(HeadersMap)));
      assert StyleRecordList(data)[0..] == StyleRecordList(data);
    }
  }

  /** The header record reads back as the eight labels, in the order of `headers_map`. */
  lemma HeaderRecord()
    ensures ParseRecord(RecordBody(Values(HeadersMap)))
         == Some(["音乐风格", "中文翻译", "来源", "特点", "乐器", "演奏形式", "适合表达的情感", "推荐BPM范围"])
  {
    ValuesAt(HeadersMap);
    var labels := ["音乐风格", "中文翻译", "来源", "特点", "乐器", "演奏形式", "适合表达的情感", "推荐BPM范围"];
    assert Values(HeadersMap) == labels;
    RecordRoundTrip(labels);
  }
}
