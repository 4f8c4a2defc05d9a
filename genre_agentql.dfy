/** genre_scraper_agentql.py without the browser: the cards come in as a list of handles, the
    detail query of each batch is an oracle from the batch's start index to the AgentQL response
    or the error it raised, and what the script does to the page is recorded as a trace of
    clicks and queries. */
module GenreScraperAgentql {
  import opened Wrappers
  import opened PyDict
  import opened PyJson
  import opened PyList
  import opened Arith
  import opened Genres

  /** What process_batch does to the page: click a card (to open or to close its details; a
      click that raises is reported and the loop goes on) or run the detail query. */
  datatype Event<C> = Click(card: C) | QueryDetails

  /** `cards[start_idx:end_idx]` with `end_idx = min(start_idx + batch_size, len(cards))`. */
  function BatchCards<C>(cards: seq<C>, start: int, size: int): seq<C> {
    Slice(cards, start, Min(start + size, |cards|))
  }

  function Clicks<C>(batch: seq<C>): (r: seq<Event<C>>)
    ensures |r| == |batch|
  {
    seq(|batch|, k requires 0 <= k < |batch| => Click(batch[k]))
  }

  /** The events of one batch: a click on every card, the query, and, in the `finally`, a click
      on every card again, whatever the query did. */
  function BatchTrace<C>(batch: seq<C>): seq<Event<C>> {
    Clicks(batch) + [QueryDetails] + Clicks(batch)
  }

  /** What process_batch returns: `detail.get("music_styles", [])`, or [] when the query or
      the `.get` raised. */
  function BatchDetails(detail: Result<Json, string>): Json {
    match detail
    case Failure(_) => JList([])
    case Success(d) =>
      match Get(d, "music_styles", JList([])) case Success(v) => v case Failure(_) => JList([])
  }

  /** `process_batch(page, cards, start_idx, batch_size)`. */
  method ProcessBatch<C>(cards: seq<C>, start: int, size: int, detail: Result<Json, string>)
    returns (trace: seq<Event<C>>, result: Json)
    ensures var batch := BatchCards(cards, start, size);
      |trace| == 2 * |batch| + 1 && trace[|batch|] == QueryDetails
      && forall k :: 0 <= k < |batch| ==> trace[k] == Click(batch[k]) && trace[|batch| + 1 + k] == Click(batch[k])
    ensures trace == BatchTrace(BatchCards(cards, start, size))
    ensures result == BatchDetails(detail)
    ensures detail.Failure? ==> result == JList([])
  {
    var endIdx := Min(start + size, |cards|);
    var batchCards := Slice(cards, start, endIdx);
    trace := [];
    for i := 0 to |batchCards|
      invariant trace == Clicks(batchCards[..i])
    {
      assert Clicks(batchCards[..i + 1]) == Clicks(batchCards[..i]) + [Click(batchCards[i])];
      trace := trace + [Click(batchCards[i])];
    }
    assert batchCards[..|batchCards|] == batchCards;
    trace := trace + [QueryDetails];
    match detail {
      case Failure(_) =>
        result := JList([]);
      case Success(d) =>
        var got := Get(d, "music_styles", JList([]));
        result := if got.Success? then got.value else JList([]);
    }
    ghost var shown := trace;
    for i := 0 to |batchCards|
      invariant trace == shown + Clicks(batchCards[..i])
    {
      assert Clicks(batchCards[..i + 1]) == Clicks(batchCards[..i]) + [Click(batchCards[i])];
      trace := trace + [Click(batchCards[i])];
    }
    assert batchCards[..|batchCards|] == batchCards;
  }

  /** `all_genres.extend(batch_genres)`: a list adds its items, a dict its keys, a str its
      characters; anything else raises TypeError. */
  function Extend(all: seq<Json>, v: Json): (r: Result<seq<Json>, string>)
    ensures v.JList? ==> r == Success(all + v.items)
    ensures r.Failure? <==> !(v.JList? || v.JDict? || v.JStr?)
  {
    match v
    case JList(items) => Success(all + items)
    case JDict(ms) => Success(all + seq(|ms|, k requires 0 <= k < |ms| => JStr(Keys(ms)[k])))
    case JStr(s) => Success(all + seq(|s|, k requires 0 <= k < |s| => JStr([s[k]])))
    case _ => Failure("'" + TypeName(v) + "' object is not iterable")
  }

  /** What the run has collected and done to the page so far. */
  datatype Scraped<C> = Scraped(genres: seq<Json>, trace: seq<Event<C>>)

  /** The loop of lines 149-154 over the remaining batch starts. */
  function Batches<C>(cards: seq<C>, starts: seq<int>, size: int, detail: int -> Result<Json, string>,
                      acc: Scraped<C>): Result<Scraped<C>, string>
    decreases |starts|
  {
    if starts == [] then Success(acc)
    else
      var batch := BatchCards(cards, starts[0], size);
      var genres :- Extend(acc.genres, BatchDetails(detail(starts[0])));
      Batches(cards, starts[1..], size, detail, Scraped(genres, acc.trace + BatchTrace(batch)))
  }

  /** The cards main processes and the start of each batch. */
  function Plan<C>(cards: seq<C>, size: int, maxCount: Option<int>): Result<(seq<C>, seq<int>), string> {
    var (total, kept) := Limit(cards, maxCount);
    var starts :- Range(0, total, size);
    Success((kept, starts))
  }

  /** What main collects from the cards the page shows; a zero batch size makes `range` raise. */
  function Scrape<C>(cards: seq<C>, size: int, maxCount: Option<int>, detail: int -> Result<Json, string>)
    : Result<Scraped<C>, string>
  {
    var (kept, starts) :- Plan(cards, size, maxCount);
    Batches(kept, starts, size, detail, Scraped([], []))
  }

  /** The two files main writes from what it collected. */
  datatype Output = Output(json: string, csv: Result<string, string>)

  /** main's loop over the batches, then its two saves. */
  method ScrapeAndSave<C>(cards: seq<C>, size: int, maxCount: Option<int>, detail: int -> Result<Json, string>)
    returns (r: Result<(Scraped<C>, Output), string>)
    ensures Scrape(cards, size, maxCount, detail).Failure? <==> r.Failure?
    ensures r.Failure? ==> r.error == Scrape(cards, size, maxCount, detail).error
    ensures r.Success? ==>
      r.value.0 == Scrape(cards, size, maxCount, detail).value
      && r.value.1 == Output(JsonText(r.value.0.genres), CsvText(r.value.0.genres))
  {
    var (totalCount, kept) := Limit(cards, maxCount);
    var range := Range(0, totalCount, size);
    if range.Failure? {
      return Failure(range.error);
    }
    var starts := range.value;
    var allGenres: seq<Json> := [];
    var trace: seq<Event<C>> := [];
    for i := 0 to |starts|
      invariant Batches(kept, starts[i..], size, detail, Scraped(allGenres, trace))
             == Scrape(cards, size, maxCount, detail)
    {
      assert starts[i..][1..] == starts[i + 1..];
      var events, batchGenres := ProcessBatch(kept, starts[i], size, detail(starts[i]));
      var extended := Extend(allGenres, batchGenres);
      if extended.Failure? {
        return Failure(extended.error);
      }
      allGenres, trace := extended.value, trace + events;
    }
    assert starts[|starts|..] == [];
    var csv := SaveToCsv(allGenres);
    r := Success((Scraped(allGenres, trace), Output(JsonText(allGenres), csv)));
  }

  // ---------------------------------------------------------------- batching

  /** The batches of the given starts, in order. */
  function BatchList<C>(cards: seq<C>, starts: seq<int>, size: int): (r: seq<seq<C>>)
    ensures |r| == |starts|
    decreases |starts|
  {
    if starts == [] then [] else [BatchCards(cards, starts[0], size)] + BatchList(cards, starts[1..], size)
  }

  /** A batch starting inside the list is the slice up to b cards further, or to the end. */
  lemma BatchAt<C>(cards: seq<C>, s: int, size: int)
    requires size > 0 && 0 <= s < |cards|
    ensures BatchCards(cards, s, size) == cards[s..Min(s + size, |cards|)]
  {
    SliceNonNegative(cards, s, Min(s + size, |cards|));
  }

  /** The batches from start s on, one after another, are the cards from s on. */
  lemma {:induction false} BatchesFlatten<C>(cards: seq<C>, s: int, size: int)
    requires size > 0 && 0 <= s <= |cards|
    ensures Flatten(BatchList(cards, RangeUp(s, |cards|, size), size)) == cards[s..]
    decreases |cards| - s
  {
    var starts := RangeUp(s, |cards|, size);
    if s < |cards| {
      var e := Min(s + size, |cards|);
      BatchAt(cards, s, size);
      assert starts[1..] == RangeUp(s + size, |cards|, size);
      if s + size < |cards| {
        BatchesFlatten(cards, s + size, size);
        assert cards[s..e] + cards[s + size..] == cards[s..];
      } else {
        assert starts[1..] == [];
        assert cards[s..e] + [] == cards[s..];
      }
    } else {
      assert cards[s..] == [];
    }
  }

  /** Every batch from start s on but the last has b cards, and the last has 1 to b. */
  lemma {:induction false} BatchesSizes<C>(cards: seq<C>, s: int, size: int)
    requires size > 0 && 0 <= s <= |cards|
    ensures var bs := BatchList(cards, RangeUp(s, |cards|, size), size);
      (forall k :: 0 <= k < |bs| - 1 ==> |bs[k]| == size)
      && (bs != [] ==> 1 <= |bs[|bs| - 1]| <= size)
    decreases |cards| - s
  {
    var starts := RangeUp(s, |cards|, size);
    var bs := BatchList(cards, starts, size);
    if s < |cards| {
      BatchAt(cards, s, size);
      assert starts[1..] == RangeUp(s + size, |cards|, size);
      var rest := BatchList(cards, starts[1..], size);
      assert bs == [BatchCards(cards, s, size)] + rest;
      if s + size < |cards| {
        BatchesSizes(cards, s + size, size);
        assert rest != [];
        forall k | 0 <= k < |bs| - 1 ensures |bs[k]| == size {
          if k > 0 {
            assert bs[k] == rest[k - 1];
          }
        }
        assert bs[|bs| - 1] == rest[|rest| - 1];
      } else {
        assert starts[1..] == [];
      }
    }
  }

  /** The batches of size b starting at 0, b, 2b, ... partition a list. */
  lemma BatchesOf<C>(kept: seq<C>, size: int)
    requires size > 0
    ensures var starts := RangeUp(0, |kept|, size);
      var bs := BatchList(kept, starts, size);
      |starts| == (|kept| + size - 1) / size
      && (forall k :: 0 <= k < |starts| ==> starts[k] == k * size)
      && Flatten(bs) == kept
      && (forall k :: 0 <= k < |bs| - 1 ==> |bs[k]| == size)
      && (bs != [] ==> 1 <= |bs[|bs| - 1]| <= size)
  {
    RangeUpSpec(0, |kept|, size);
    BatchesFlatten(kept, 0, size);
    BatchesSizes(kept, 0, size);
    assert kept[0..] == kept;
    if |kept| == 0 {
      assert (|kept| + size - 1) / size == 0;
    }
  }

  /** With a positive batch size, and no limit or a non-negative one, main processes the first
      min(len, max_count) cards in batches starting at 0, b, 2b, ... below their number. */
  lemma PlanSpec<C>(cards: seq<C>, size: int, maxCount: Option<int>)
    requires size > 0 && (maxCount.None? || maxCount.value >= 0)
    ensures var n := Limit(cards, maxCount).0;
      0 <= n <= |cards| && Plan(cards, size, maxCount) == Success((cards[..n], RangeUp(0, n, size)))
  {
    LimitSpec(cards, maxCount);
    assert cards[..|cards|] == cards;
  }

  /** ... and there are (total + b - 1) // b batches, which partition the processed cards in
      order, every batch but the last of size b. */
  lemma BatchesPartition<C>(cards: seq<C>, size: int, maxCount: Option<int>)
    requires size > 0 && (maxCount.None? || maxCount.value >= 0)
    ensures Plan(cards, size, maxCount).Success?
    ensures var n := Limit(cards, maxCount).0;
      var kept := Plan(cards, size, maxCount).value.0;
      var starts := Plan(cards, size, maxCount).value.1;
      var bs := BatchList(kept, starts, size);
      kept == cards[..n]
      && |starts| == (n + size - 1) / size
      && (forall k :: 0 <= k < |starts| ==> starts[k] == k * size)
      && Flatten(bs) == kept
      && (forall k :: 0 <= k < |bs| - 1 ==> |bs[k]| == size)
      && (bs != [] ==> 1 <= |bs[|bs| - 1]| <= size)
  {
    PlanSpec(cards, size, maxCount);
    var n := Limit(cards, maxCount).0;
    BatchesOf(cards[..n], size);
  }

  // ---------------------------------------------------------------- what main collects

  /** The items of a list. */
  function Items(v: Json): seq<Json> {
    if v.JList? then v.items else []
  }

  /** What the batches of the given starts return, as lists. */
  function DetailLists(starts: seq<int>, detail: int -> Result<Json, string>): seq<seq<Json>>
    decreases |starts|
  {
    if starts == [] then [] else [Items(BatchDetails(detail(starts[0])))] + DetailLists(starts[1..], detail)
  }

  function BatchTraces<C>(cards: seq<C>, starts: seq<int>, size: int): seq<seq<Event<C>>>
    decreases |starts|
  {
    if starts == [] then [] else [BatchTrace(BatchCards(cards, starts[0], size))] + BatchTraces(cards, starts[1..], size)
  }

  lemma {:induction false} BatchesCollect<C>(cards: seq<C>, starts: seq<int>, size: int,
                                             detail: int -> Result<Json, string>, acc: Scraped<C>)
    requires forall k :: 0 <= k < |starts| ==> BatchDetails(detail(starts[k])).JList?
    ensures Batches(cards, starts, size, detail, acc)
         == Success(Scraped(acc.genres + Flatten(DetailLists(starts, detail)),
                            acc.trace + Flatten(BatchTraces(cards, starts, size))))
    decreases |starts|
  {
    if starts != [] {
      var v := BatchDetails(detail(starts[0]));
      var t := BatchTrace(BatchCards(cards, starts[0], size));
      BatchesCollect(cards, starts[1..], size, detail, Scraped(acc.genres + v.items, acc.trace + t));
      assert acc.genres + v.items + Flatten(DetailLists(starts[1..], detail))
          == acc.genres + Flatten(DetailLists(starts, detail));
      assert acc.trace + t + Flatten(BatchTraces(cards, starts[1..], size))
          == acc.trace + Flatten(BatchTraces(cards, starts, size));
    } else {
      assert acc.genres + [] == acc.genres && acc.trace + [] == acc.trace;
    }
  }

  /** main fails exactly when the batch size is zero, as long as every batch returns a list
      (a failed query returns []); then all_genres is the batch results one after another and
      the page sees each batch's clicks, query and closing clicks, batch after batch. */
  lemma ScrapeCollects<C>(cards: seq<C>, size: int, maxCount: Option<int>, detail: int -> Result<Json, string>)
    requires forall s :: BatchDetails(detail(s)).JList?
    ensures Scrape(cards, size, maxCount, detail).Failure? <==> size == 0
    ensures size != 0 ==>
      var (kept, starts) := Plan(cards, size, maxCount).value;
      Scrape(cards, size, maxCount, detail)
        == Success(Scraped(Flatten(DetailLists(starts, detail)), Flatten(BatchTraces(kept, starts, size))))
  {
    if size != 0 {
      var (kept, starts) := Plan(cards, size, maxCount).value;
      forall k | 0 <= k < |starts| ensures BatchDetails(detail(starts[k])).JList? {
        var s := starts[k];
        assert BatchDetails(detail(s)).JList?;
      }
      BatchesCollect(kept, starts, size, detail, Scraped([], []));
      assert [] + Flatten(DetailLists(starts, detail)) == Flatten(DetailLists(starts, detail));
      assert [] + Flatten(BatchTraces(kept, starts, size)) == Flatten(BatchTraces(kept, starts, size));
    }
  }
}
