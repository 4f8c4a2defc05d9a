/** genre_scraper_playwright.py without the browser: a card's detail table comes in as the
    text of the first and last cell of each row (or the error reading it raised), and whether
    the click that opens a card raised is an input. */
module GenreScraperPlaywright {
  import opened Wrappers
  import opened Strings
  import opened PyDict
  import opened PyJson
  import opened Genres

  /** What extract_genre_details builds: field name to cell text, in insertion order. */
  type Details = seq<(string, string)>

  /** The row titles of lines 71-86 and the field each one fills; any other title fills none. */
  function FieldOf(title: string): Option<string> {
    if title == "音乐风格" then Some("genre_name")
    else if title == "中文翻译" then Some("genre_name_cn")
    else if title == "来源" then Some("origin")
    else if title == "特点" then Some("features")
    else if title == "乐器" then Some("instruments")
    else if title == "演奏形式" then Some("performance_style")
    else if title == "适合表达的情感" then Some("emotion")
    else if title == "推荐BPM范围" then Some("bpm_range")
    else None
  }

  /** The label of the field a title fills is that title. */
  lemma FieldLabel(title: string)
    ensures FieldOf(title).Some? ==> Lookup(HeadersMap, FieldOf(title).value) == Some(title)
  {
  }

  /** The field a label fills is the field it labels. */
  lemma LabelField(key: string)
    ensures Lookup(HeadersMap, key).Some? ==> FieldOf(Lookup(HeadersMap, key).value) == Some(key)
  {
    LookupSpec(HeadersMap, key);
    LabelsFill();
  }

  /** Every label of the CSV header fills the field it labels. */
  lemma LabelsFill()
    ensures forall i :: 0 <= i < |HeadersMap| ==> FieldOf(HeadersMap[i].1) == Some(HeadersMap[i].0)
  {
  }

  /** A title fills no field exactly when it is none of the labels. */
  lemma FieldNone(title: string)
    ensures FieldOf(title).None? <==> title !in Values(HeadersMap)
  {
    ValuesAt(HeadersMap);
    FieldLabel(title);
    if FieldOf(title).Some? {
      LookupSpec(HeadersMap, FieldOf(title).value);
    }
    if title in Values(HeadersMap) {
      var i :| 0 <= i < |HeadersMap| && Values(HeadersMap)[i] == title;
      LabelsFill();
    }
  }

  /** A title fills a field exactly when it is the label save_to_csv writes for that field,
      so reading a table and writing the CSV header agree on every column. */
  lemma FieldOfLabel(title: string, key: string)
    ensures FieldOf(title) == Some(key) <==> Lookup(HeadersMap, key) == Some(title)
    ensures FieldOf(title).None? <==> title !in Values(HeadersMap)
  {
    FieldLabel(title);
    LabelField(key);
    FieldNone(title);
  }

  /** One pass of the loop body: both cells stripped, then the title decides the field. */
  function Assign(details: Details, row: (string, string)): Details {
    match FieldOf(Strip(row.0))
    case Some(key) => Put(details, key, Strip(row.1))
    case None => details
  }

  /** The dict after the loop has seen the given rows. */
  function DetailsOf(rows: seq<(string, string)>): Details
    decreases |rows|
  {
    if rows == [] then [] else Assign(DetailsOf(rows[..|rows| - 1]), rows[|rows| - 1])
  }

  /** `extract_genre_details(page, card)` over the rows of the card's table. */
  method ExtractGenreDetails(rows: seq<(string, string)>) returns (details: Details)
    ensures details == DetailsOf(rows)
  {
    details := [];
    for i := 0 to |rows|
      invariant details == DetailsOf(rows[..i])
    {
      var title := Strip(rows[i].0);
      var content := Strip(rows[i].1);
      var field := FieldOf(title);
      if field.Some? {
        details := Put(details, field.value, content);
      }
      assert rows[..i + 1][..i] == rows[..i];
    }
    assert rows[..|rows|] == rows;
  }

  /** The stripped content of the last row whose stripped title is the label. */
  function LastFor(rows: seq<(string, string)>, heading: string): Option<string>
    decreases |rows|
  {
    if rows == [] then None
    else if Strip(rows[|rows| - 1].0) == heading then Some(Strip(rows[|rows| - 1].1))
    else LastFor(rows[..|rows| - 1], heading)
  }

  /** A field holds the content of the last row titled with its label (a later row overwrites
      an earlier one), and nothing when no row has that title or the field has no label. */
  lemma {:induction false} DetailsLookup(rows: seq<(string, string)>, key: string)
    ensures Lookup(DetailsOf(rows), key)
         == match Lookup(HeadersMap, key) case Some(heading) => LastFor(rows, heading) case None => None
    decreases |rows|
  {
    if rows != [] {
      var init := rows[..|rows| - 1];
      var row := rows[|rows| - 1];
      DetailsLookup(init, key);
      FieldOfLabel(Strip(row.0), key);
      match FieldOf(Strip(row.0)) {
        case Some(k) => PutLookup(DetailsOf(init), k, Strip(row.1), key);
        case None =>
      }
    }
  }

  /** Rows with other titles are ignored: every key of the result is one of the eight fields. */
  lemma DetailsKeys(rows: seq<(string, string)>)
    ensures forall k :: k in Keys(DetailsOf(rows)) ==> k in Keys(HeadersMap)
  {
    forall k | k in Keys(DetailsOf(rows)) ensures k in Keys(HeadersMap) {
      KeysIn(DetailsOf(rows), k);
      DetailsLookup(rows, k);
      KeysIn(HeadersMap, k);
    }
  }

  // ---------------------------------------------------------------- main

  /** What one card adds to all_genres: the details when the opening click and the extraction
      went through, nothing when either raised. The closing click comes after the append, so
      its failure changes nothing. */
  function Visit(clicked: bool, rows: Result<seq<(string, string)>, string>): seq<Details> {
    if clicked && rows.Success? then [DetailsOf(rows.value)] else []
  }

  /** all_genres after the loop has seen the given cards. */
  function Collected<C>(cards: seq<C>, opens: C -> bool, table: C -> Result<seq<(string, string)>, string>)
    : seq<Details>
    decreases |cards|
  {
    if cards == [] then []
    else
      var c := cards[|cards| - 1];
      Collected(cards[..|cards| - 1], opens, table) + Visit(opens(c), table(c))
  }

  /** Whether card i went through. */
  predicate Handled<C>(cards: seq<C>, opens: C -> bool, table: C -> Result<seq<(string, string)>, string>, i: int)
    requires 0 <= i < |cards|
  {
    opens(cards[i]) && table(cards[i]).Success?
  }

  /** The positions of the cards that went through, in order. */
  function HandledAt<C>(cards: seq<C>, opens: C -> bool, table: C -> Result<seq<(string, string)>, string>)
    : (r: seq<nat>)
    ensures |r| == |Collected(cards, opens, table)|
    ensures forall j :: 0 <= j < |r| ==> r[j] < |cards|
    decreases |cards|
  {
    if cards == [] then []
    else
      var n := |cards| - 1;
      HandledAt(cards[..n], opens, table) + (if Handled(cards, opens, table, n) then [n] else [])
  }

  /** The positions are increasing. */
  lemma {:induction false} HandledAtIncreasing<C>(cards: seq<C>, opens: C -> bool,
                                                 table: C -> Result<seq<(string, string)>, string>)
    ensures forall j, l :: 0 <= j < l < |HandledAt(cards, opens, table)| ==>
      HandledAt(cards, opens, table)[j] < HandledAt(cards, opens, table)[l]
    decreases |cards|
  {
    if cards != [] {
      var n := |cards| - 1;
      var init := cards[..n];
      HandledAtIncreasing(init, opens, table);
      var at0 := HandledAt(init, opens, table);
      var at := HandledAt(cards, opens, table);
      assert at == at0 + (if Handled(cards, opens, table, n) then [n] else []);
      forall j, l | 0 <= j < l < |at| ensures at[j] < at[l] {
        if l < |at0| {
          assert at[j] == at0[j] && at[l] == at0[l] && at0[j] < at0[l];
        } else {
          assert at[j] == at0[j] < n && at[l] == n;
        }
      }
    }
  }

  /** The positions are those of exactly the cards that went through. */
  lemma {:induction false} HandledAtExactly<C>(cards: seq<C>, opens: C -> bool,
                                              table: C -> Result<seq<(string, string)>, string>)
    ensures forall i :: 0 <= i < |cards| ==> (Handled(cards, opens, table, i) <==> i in HandledAt(cards, opens, table))
    decreases |cards|
  {
    if cards != [] {
      var n := |cards| - 1;
      var init := cards[..n];
      HandledAtExactly(init, opens, table);
      var at0 := HandledAt(init, opens, table);
      var at := HandledAt(cards, opens, table);
      assert at == at0 + (if Handled(cards, opens, table, n) then [n] else []);
      assert n !in at0;
      forall i | 0 <= i < n ensures Handled(cards, opens, table, i) == Handled(init, opens, table, i) {
        assert cards[i] == init[i];
      }
    }
  }

  /** A card that raises is skipped: the j-th entry of all_genres is what the j-th card that
      went through added. */
  lemma {:induction false} CollectedAt<C>(cards: seq<C>, opens: C -> bool,
                                         table: C -> Result<seq<(string, string)>, string>)
    ensures var at := HandledAt(cards, opens, table);
      forall j :: 0 <= j < |at| ==>
        Visit(opens(cards[at[j]]), table(cards[at[j]])) == [Collected(cards, opens, table)[j]]
    decreases |cards|
  {
    if cards != [] {
      var n := |cards| - 1;
      var init := cards[..n];
      CollectedAt(init, opens, table);
      var at0 := HandledAt(init, opens, table);
      var at := HandledAt(cards, opens, table);
      var col0 := Collected(init, opens, table);
      var col := Collected(cards, opens, table);
      assert at[..|at0|] == at0 && col[..|col0|] == col0;
      forall j | 0 <= j < |at0| ensures cards[at[j]] == init[at0[j]] {
      }
    }
  }

  /** main's loop over the cards (after the max_count cut): open, extract, append, close. */
  method VisitCards<C>(cards: seq<C>, opens: C -> bool, table: C -> Result<seq<(string, string)>, string>)
    returns (allGenres: seq<Details>)
    ensures allGenres == Collected(cards, opens, table)
  {
    allGenres := [];
    for i := 0 to |cards|
      invariant allGenres == Collected(cards[..i], opens, table)
    {
      assert cards[..i + 1][..i] == cards[..i];
      var card := cards[i];
      if opens(card) {
        var rows := table(card);
        if rows.Success? {
          var genreDetails := ExtractGenreDetails(rows.value);
          allGenres := allGenres + [genreDetails];
        }
      }
    }
    assert cards[..|cards|] == cards;
  }

  // ---------------------------------------------------------------- output

  /** The items of a details dict as JSON members, every value a str. */
  function Members(d: Details): (r: seq<(string, Json)>)
    ensures |r| == |d|
    decreases |d|
  {
    if d == [] then [] else [(d[0].0, JStr(d[0].1))] + Members(d[1..])
  }

  function AsJson(all: seq<Details>): (r: seq<Json>)
    ensures |r| == |all| && forall i :: 0 <= i < |r| ==> r[i].JDict?
  {
    seq(|all|, i requires 0 <= i < |all| => JDict(Members(all[i])))
  }

  /** The CSV fields of a details dict are its contents, in insertion order. */
  lemma {:induction false} MembersValues(d: Details)
    ensures CsvValues(Values(Members(d))) == Values(d)
    decreases |d|
  {
    if d != [] {
      MembersValues(d[1..]);
    }
  }

  /** The CSV main writes never fails: after the byte order mark and the header of the eight
      labels comes one record per card that went through, holding that card's contents in
      the order its rows filled them. */
  lemma CsvOfDetails(all: seq<Details>)
    ensures CsvText(AsJson(all))
         == Success("\U{FEFF}" + Record(Values(HeadersMap))
                    + Concat(seq(|all|, i requires 0 <= i < |all| => Record(Values(all[i])))))
  {
    var data := AsJson(all);
    CsvTextSpec(data);
    forall i | 0 <= i < |all| ensures StyleRecordList(data)[i] == Record(Values(all[i])) {
      MembersValues(all[i]);
    }
    assert StyleRecordList(data) == seq(|all|, i requires 0 <= i < |all| => Record(Values(all[i])));
  }

  /** The two files main writes. */
  datatype Output = Output(json: string, csv: string)

  /** `main(output_dir, max_count)`: the first min(len, max_count) cards, then the two saves. */
  method Scrape<C>(cards: seq<C>, maxCount: Option<int>, opens: C -> bool,
                   table: C -> Result<seq<(string, string)>, string>)
    returns (allGenres: seq<Details>, out: Output)
    ensures allGenres == Collected(Limit(cards, maxCount).1, opens, table)
    ensures Success(out.csv) == CsvText(AsJson(allGenres))
    ensures out.json == JsonText(AsJson(allGenres))
  {
    var (totalCount, kept) := Limit(cards, maxCount);
    allGenres := VisitCards(kept, opens, table);
    var data := AsJson(allGenres);
    CsvOfDetails(allGenres);
    var csv := SaveToCsv(data);
    out := Output(JsonText(data), csv.value);
  }
}
