/** Data ingestion: the paginated kline download and the validation gate
    (pipelines/data_ingestion/nodes.py). The exchange API is a function from a
    request window to a response; the wall clock is a parameter. */
module Ingestion {
  import opened Common

  // ------------------------------------------------------------------
  // Data model
  // ------------------------------------------------------------------

  /** One downloaded kline after column conversion. The six numeric columns
      the source converts with errors="coerce" are None where the text did not
      parse; the two taker columns are never converted and stay text. Times are
      epoch milliseconds. */
  datatype Kline = Kline(
    timestamp: int,
    open: Option<real>,
    high: Option<real>,
    low: Option<real>,
    close: Option<real>,
    volume: Option<real>,
    closeTime: int,
    quoteVolume: Option<real>,
    trades: int,
    takerBuyBase: string,
    takerBuyQuote: string)

  /** The open time, the key the fetcher deduplicates and sorts by. */
  function TimestampOf(k: Kline): int { k.timestamp }

  /** What one GET /api/v3/klines call gives back: a page of rows (the
      exchange decides how many) or a request failure (a transport error or a
      non-success status). */
  datatype Response = Page(rows: seq<Kline>) | RequestFailed(reason: string)

  /** The exchange, as a function of the request's startTime and endTime; the
      symbol and interval are fixed for one download. */
  type Api = (int, int) -> Response

  /** Lookback years are counted as 365 days each. */
  const DaysPerYear: int := 365

  datatype FetchError = NetworkError(reason: string)

  // ------------------------------------------------------------------
  // Pagination
  // ------------------------------------------------------------------

  /** The exchange never answers a request below the end time with a
      non-empty page whose last row closes before the requested start, so
      each page moves the cursor forward. */
  ghost predicate Progresses(api: Api, endMs: int)
  {
    forall c :: c < endMs ==>
      (api(c, endMs).Page? && |api(c, endMs).rows| > 0 ==>
         api(c, endMs).rows[|api(c, endMs).rows| - 1].closeTime >= c)
  }

  /** The rows the pagination loop collects from `cursor` on, in arrival
      order: nothing once the cursor reaches the end time or a page is empty;
      otherwise the page followed by what the request from its last close time
      plus one collects. A failed request fails the whole download. */
  ghost function Collected(api: Api, cursor: int, endMs: int): Result<seq<Kline>, FetchError>
    requires Progresses(api, endMs)
    decreases endMs - cursor
  {
    if cursor >= endMs then Ok([])
    else
      match api(cursor, endMs)
      case RequestFailed(reason) => Err(NetworkError(reason))
      case Page(rows) =>
        if rows == [] then Ok([])
        else
          match Collected(api, rows[|rows| - 1].closeTime + 1, endMs)
          case Ok(more) => Ok(rows + more)
          case Err(e) => Err(e)
  }

  /** The frame the fetcher returns for the collected rows: duplicates of an
      open time dropped (the first one kept), then sorted by open time. */
  function Tidy(rows: seq<Kline>): seq<Kline>
  {
    SortBy(DedupBy(rows, TimestampOf), TimestampOf)
  }

  /** `acc` followed by what a collection yields; a failure stays a failure. */
  function Prefixed(acc: seq<Kline>, r: Result<seq<Kline>, FetchError>): (p: Result<seq<Kline>, FetchError>)
    ensures p.Ok? <==> r.Ok?
    ensures r.Ok? ==> p.value == acc + r.value
    ensures r.Err? ==> p.error == r.error
  {
    match r
    case Ok(more) => Ok(acc + more)
    case Err(e) => Err(e)
  }

  lemma PrefixedAppend(a: seq<Kline>, b: seq<Kline>, r: Result<seq<Kline>, FetchError>)
    ensures Prefixed(a, Prefixed(b, r)) == Prefixed(a + b, r)
  {
    if r.Ok? {
      assert a + (b + r.value) == (a + b) + r.value;
    }
  }

  lemma PrefixedNothing(r: Result<seq<Kline>, FetchError>)
    ensures Prefixed([], r) == r
  {
    if r.Ok? {
      assert [] + r.value == r.value;
    }
  }

  /** fetch_bitcoin_klines: page through [now - years * 365 days, now],
      appending each non-empty page and moving the cursor past its last row,
      then tidy the rows. A failed request is re-raised, so no partial frame
      is returned. */
  method FetchKlines(api: Api, nowMs: int, yearsOfData: int) returns (r: Result<seq<Kline>, FetchError>)
    requires Progresses(api, nowMs)
    ensures r == match Collected(api, nowMs - yearsOfData * DaysPerYear * MsPerDay, nowMs)
                 case Ok(rows) => Ok(Tidy(rows))
                 case Err(e) => Err(e)
  {
    var endMs := nowMs;
    var startMs := nowMs - yearsOfData * DaysPerYear * MsPerDay;
    var allKlines: seq<Kline> := [];
    var currentStart := startMs;
    PrefixedNothing(Collected(api, startMs, endMs));
    while currentStart < endMs
      invariant Collected(api, startMs, endMs) == Prefixed(allKlines, Collected(api, currentStart, endMs))
      decreases endMs - currentStart
    {
      var response := api(currentStart, endMs);
      if response.RequestFailed? {
        return Err(NetworkError(response.reason));
      }
      var data := response.rows;
      if data == [] {
        CollectedStops(api, currentStart, endMs);
        break;
      }
      CollectedStep(api, currentStart, endMs);
      var next := data[|data| - 1].closeTime + 1;
      PrefixedAppend(allKlines, data, Collected(api, next, endMs));
      allKlines := allKlines + data;
      currentStart := next;
    }
    if currentStart >= endMs {
      CollectedStops(api, currentStart, endMs);
    }
    assert allKlines + [] == allKlines;
    r := Ok(Tidy(allKlines));
  }

  /** One step of the loop: after a non-empty page the collected rows are
      that page followed by what the advanced cursor collects, and the cursor
      strictly increases. */
  lemma {:induction false} CollectedStep(api: Api, cursor: int, endMs: int)
    requires Progresses(api, endMs)
    requires cursor < endMs && api(cursor, endMs).Page? && |api(cursor, endMs).rows| > 0
    ensures var rows := api(cursor, endMs).rows;
            var next := rows[|rows| - 1].closeTime + 1;
            next > cursor &&
            Collected(api, cursor, endMs) == Prefixed(rows, Collected(api, next, endMs))
  {
  }

  /** The loop stops at the first empty page, and once the cursor is no
      longer below the end time. */
  lemma {:induction false} CollectedStops(api: Api, cursor: int, endMs: int)
    requires Progresses(api, endMs)
    requires cursor >= endMs || api(cursor, endMs) == Page([])
    ensures Collected(api, cursor, endMs) == Ok([])
  {
  }

  /** The tidy frame is strictly ascending by open time (so its open times
      are unique), has exactly the open times that were fetched, is no longer
      than what was fetched, and keeps the first fetched row of each open time. */
  lemma {:induction false} TidyFacts(rows: seq<Kline>)
    ensures StrictlyAscending(Tidy(rows), TimestampOf)
    ensures Keys(Tidy(rows), TimestampOf) == Keys(rows, TimestampOf)
    ensures |Tidy(rows)| <= |rows|
    ensures forall i :: 0 <= i < |Tidy(rows)| ==>
      Tidy(rows)[i].timestamp in Keys(rows, TimestampOf) &&
      Tidy(rows)[i] == rows[FirstIndex(rows, TimestampOf, Tidy(rows)[i].timestamp)]
  {
    var d := DedupBy(rows, TimestampOf);
    DedupByFacts(rows, TimestampOf);
    SortByFacts(d, TimestampOf);
    var t := Tidy(rows);
    forall i | 0 <= i < |t|
      ensures t[i].timestamp in Keys(rows, TimestampOf)
      ensures t[i] == rows[FirstIndex(rows, TimestampOf, t[i].timestamp)]
    {
      assert t[i] in multiset(d);
      var k :| 0 <= k < |d| && d[k] == t[i];
    }
  }

  /** A page whose open times are strictly ascending, followed by an empty
      page, is downloaded exactly as it arrived. */
  lemma {:induction false} SinglePageDownload(api: Api, startMs: int, endMs: int)
    requires Progresses(api, endMs)
    requires startMs < endMs
    requires api(startMs, endMs).Page? && |api(startMs, endMs).rows| > 0
    requires StrictlyAscending(api(startMs, endMs).rows, TimestampOf)
    requires var rows := api(startMs, endMs).rows;
             api(rows[|rows| - 1].closeTime + 1, endMs) == Page([])
    ensures Collected(api, startMs, endMs) == Ok(api(startMs, endMs).rows)
    ensures Tidy(api(startMs, endMs).rows) == api(startMs, endMs).rows
  {
    var rows := api(startMs, endMs).rows;
    CollectedStep(api, startMs, endMs);
    CollectedStops(api, rows[|rows| - 1].closeTime + 1, endMs);
    assert rows + [] == rows;
    DedupByUniqueIsIdentity(rows, TimestampOf);
    SortByAscendingIsIdentity(rows, TimestampOf);
  }

  // ------------------------------------------------------------------
  // Validation gate
  // ------------------------------------------------------------------

  datatype Column =
    | Timestamp | Open | High | Low | Close | Volume
    | CloseTime | QuoteVolume | Trades | TakerBuyBase | TakerBuyQuote

  const RequiredColumns: set<Column> := {Timestamp, Open, High, Low, Close, Volume}

  /** The price columns, in the order the negative-price check visits them. */
  const PriceColumns: seq<Column> := [Open, High, Low, Close]

  /** The required columns that can hold nulls. The open time is always set
      by the fetcher, so forward fill has nothing to do there. */
  const NullableRequired: set<Column> := {Open, High, Low, Close, Volume}

  datatype ValidationError =
    | EmptyData
    | MissingColumns(missing: set<Column>)
    | NegativePrices(column: Column)

  function Cell(k: Kline, c: Column): Option<real>
    requires c in NullableRequired
  {
    match c
    case Open => k.open
    case High => k.high
    case Low => k.low
    case Close => k.close
    case Volume => k.volume
  }

  /** `k` with each null required cell taken from `prev`. */
  function FillFrom(k: Kline, prev: Kline): (r: Kline)
    ensures forall c :: c in NullableRequired ==>
      Cell(r, c) == if Cell(k, c).Some? then Cell(k, c) else Cell(prev, c)
    ensures r.timestamp == k.timestamp && r.closeTime == k.closeTime && r.quoteVolume == k.quoteVolume
    ensures r.trades == k.trades && r.takerBuyBase == k.takerBuyBase && r.takerBuyQuote == k.takerBuyQuote
  {
    k.(open := if k.open.Some? then k.open else prev.open,
       high := if k.high.Some? then k.high else prev.high,
       low := if k.low.Some? then k.low else prev.low,
       close := if k.close.Some? then k.close else prev.close,
       volume := if k.volume.Some? then k.volume else prev.volume)
  }

  /** pandas' ffill over the required columns, defined row by row from the end. */
  function FFill(s: seq<Kline>): (r: seq<Kline>)
    ensures |r| == |s|
  {
    if |s| <= 1 then s
    else
      var f := FFill(s[..|s| - 1]);
      f + [FillFrom(s[|s| - 1], f[|f| - 1])]
  }

  /** The value forward fill puts in row `i` of column `c`: the cell of the
      latest row at or before `i` that is not null, or null when there is none. */
  function LastNonNull(s: seq<Kline>, c: Column, i: int): Option<real>
    requires c in NullableRequired && -1 <= i < |s|
    decreases i + 1
  {
    if i < 0 then None
    else if Cell(s[i], c).Some? then Cell(s[i], c)
    else LastNonNull(s, c, i - 1)
  }

  predicate HasNulls(s: seq<Kline>)
  {
    exists i, c :: 0 <= i < |s| && c in NullableRequired && Cell(s[i], c).None?
  }

  /** (raw_data[col] < 0).any(); a null compares false, so it never counts. */
  predicate HasNegative(s: seq<Kline>, c: Column)
    requires c in NullableRequired
  {
    exists i :: 0 <= i < |s| && Cell(s[i], c).Some? && Cell(s[i], c).value < 0.0
  }

  /** The first column of `cols` that holds a negative value. */
  function FirstNegative(s: seq<Kline>, cols: seq<Column>): (r: Option<Column>)
    requires forall j :: 0 <= j < |cols| ==> cols[j] in NullableRequired
    ensures r.None? <==> forall j :: 0 <= j < |cols| ==> !HasNegative(s, cols[j])
    ensures r.Some? ==> exists j :: 0 <= j < |cols| && cols[j] == r.value && HasNegative(s, cols[j]) &&
                                   forall k :: 0 <= k < j ==> !HasNegative(s, cols[k])
  {
    if cols == [] then None
    else if HasNegative(s, cols[0]) then Some(cols[0])
    else
      var r := FirstNegative(s, cols[1..]);
      assert forall j :: 1 <= j < |cols| ==> cols[j] == cols[1..][j - 1];
      assert r.Some? ==> cols[1..][0..] == cols[1..];
      r
  }

  function MissingRequired(columns: set<Column>): set<Column>
  {
    RequiredColumns - columns
  }

  /** The frame after the null check: forward-filled when some required cell
      is null, as it was otherwise. */
  function Healed(s: seq<Kline>): seq<Kline>
  {
    if HasNulls(s) then FFill(s) else s
  }

  /** What validate_raw_data decides for a frame with these columns and rows.
      A frame without rows or without columns is pandas' "empty". */
  function Validation(columns: set<Column>, s: seq<Kline>): Result<seq<Kline>, ValidationError>
  {
    if |s| == 0 || columns == {} then Err(EmptyData)
    else if MissingRequired(columns) != {} then Err(MissingColumns(MissingRequired(columns)))
    else
      match FirstNegative(Healed(s), PriceColumns)
      case Some(c) => Err(NegativePrices(c))
      case None => Ok(Healed(s))
  }

  /** validate_raw_data over the caller's rows. The forward fill writes into
      the caller's frame, so the rows stay filled even when the negative-price
      check then rejects them. */
  method ValidateRawData(columns: set<Column>, rows: array<Kline>) returns (r: Result<seq<Kline>, ValidationError>)
    modifies rows
    ensures r == Validation(columns, old(rows[..]))
    ensures rows[..] == if rows.Length == 0 || columns == {} || MissingRequired(columns) != {}
                        then old(rows[..]) else Healed(old(rows[..]))
  {
    if rows.Length == 0 || columns == {} {
      return Err(EmptyData);
    }
    var missing := MissingRequired(columns);
    if missing != {} {
      return Err(MissingColumns(missing));
    }
    if HasNulls(rows[..]) {
      ForwardFill(rows);
    }
    assert rows[..] == Healed(old(rows[..]));
    var j := 0;
    while j < |PriceColumns|
      invariant 0 <= j <= |PriceColumns|
      invariant forall k :: 0 <= k < j ==> !HasNegative(rows[..], PriceColumns[k])
    {
      if HasNegative(rows[..], PriceColumns[j]) {
        NegativeIsFirst(rows[..], j);
        return Err(NegativePrices(PriceColumns[j]));
      }
      j := j + 1;
    }
    r := Ok(rows[..]);
  }

  lemma NegativeIsFirst(s: seq<Kline>, j: int)
    requires 0 <= j < |PriceColumns| && HasNegative(s, PriceColumns[j])
    requires forall k :: 0 <= k < j ==> !HasNegative(s, PriceColumns[k])
    ensures FirstNegative(s, PriceColumns) == Some(PriceColumns[j])
  {
    var cols := PriceColumns;
    assert cols[1..] == [High, Low, Close] && cols[1..][1..] == [Low, Close] && cols[1..][1..][1..] == [Close];
  }

  /** raw_data[required_columns] = raw_data[required_columns].ffill(), in place. */
  method ForwardFill(rows: array<Kline>)
    modifies rows
    ensures rows[..] == FFill(old(rows[..]))
  {
    ghost var s := rows[..];
    if rows.Length <= 1 {
      return;
    }
    var i := 1;
    while i < rows.Length
      invariant 1 <= i <= rows.Length
      invariant rows[..i] == FFill(s[..i])
      invariant forall k :: i <= k < rows.Length ==> rows[k] == s[k]
    {
      FFillSnoc(s, i);
      ghost var before := rows[..i];
      rows[i] := FillFrom(rows[i], rows[i - 1]);
      assert rows[..i + 1] == before + [rows[i]];
      i := i + 1;
    }
    assert rows[..] == rows[..rows.Length];
    assert s == s[..rows.Length];
  }

  /** Forward fill of one more row extends the filled prefix by that row,
      filled from the last filled row. */
  lemma {:induction false} FFillSnoc(s: seq<Kline>, i: int)
    requires 1 <= i < |s|
    ensures FFill(s[..i + 1]) == FFill(s[..i]) + [FillFrom(s[i], FFill(s[..i])[i - 1])]
  {
    assert s[..i + 1][..i] == s[..i];
  }

  /** Forward fill keeps the row count and every column it does not fill,
      and puts in each required cell the latest non-null value at or above it:
      a null with no non-null above it (a leading null) stays null. */
  lemma {:induction false} FFillMeaning(s: seq<Kline>, i: int, c: Column)
    requires 0 <= i < |s| && c in NullableRequired
    ensures Cell(FFill(s)[i], c) == LastNonNull(s, c, i)
    ensures FFill(s)[i].timestamp == s[i].timestamp && FFill(s)[i].closeTime == s[i].closeTime
    decreases |s|
  {
    if |s| > 1 {
      var p := s[..|s| - 1];
      var f := FFill(p);
      if i < |s| - 1 {
        FFillMeaning(p, i, c);
        LastNonNullPrefix(s, p, c, i);
      } else {
        FFillMeaning(p, i - 1, c);
        LastNonNullPrefix(s, p, c, i - 1);
      }
    }
  }

  lemma {:induction false} LastNonNullPrefix(s: seq<Kline>, p: seq<Kline>, c: Column, i: int)
    requires c in NullableRequired && -1 <= i < |p| <= |s| && p == s[..|p|]
    ensures LastNonNull(p, c, i) == LastNonNull(s, c, i)
    decreases i + 1
  {
    if i >= 0 {
      LastNonNullPrefix(s, p, c, i - 1);
    }
  }

  /** A frame without nulls is left as it is by forward fill. */
  lemma {:induction false} FFillWithoutNulls(s: seq<Kline>)
    requires !HasNulls(s)
    ensures FFill(s) == s
  {
    if |s| > 1 {
      var p := s[..|s| - 1];
      assert !HasNulls(p);
      FFillWithoutNulls(p);
      var k := s[|s| - 1];
      assert forall c :: c in NullableRequired ==> Cell(k, c).Some?;
      assert FillFrom(k, FFill(p)[|p| - 1]) == k;
      assert s == p + [k];
    }
  }

  /** The gate checks in a fixed order: an empty frame first, then missing
      required columns, then the first price column (open, high, low, close)
      with a negative value after forward fill. */
  lemma {:induction false} ValidationOrder(columns: set<Column>, s: seq<Kline>)
    ensures Validation(columns, s) == Err(EmptyData) <==> |s| == 0 || columns == {}
    ensures Validation(columns, s).Err? && Validation(columns, s).error.MissingColumns? <==>
              |s| > 0 && columns != {} && !(RequiredColumns <= columns)
    ensures Validation(columns, s).Err? && Validation(columns, s).error.MissingColumns? ==>
              Validation(columns, s).error.missing == RequiredColumns - columns
    ensures forall j :: 0 <= j < |PriceColumns| ==>
              (Validation(columns, s) == Err(NegativePrices(PriceColumns[j])) <==>
                 |s| > 0 && RequiredColumns <= columns &&
                 HasNegative(Healed(s), PriceColumns[j]) &&
                 forall k :: 0 <= k < j ==> !HasNegative(Healed(s), PriceColumns[k]))
    ensures Validation(columns, s).Ok? <==>
              |s| > 0 && RequiredColumns <= columns &&
              forall j :: 0 <= j < |PriceColumns| ==> !HasNegative(Healed(s), PriceColumns[j])
  {
    assert MissingRequired(columns) == {} <==> RequiredColumns <= columns by {
      if !(RequiredColumns <= columns) {
        var c :| c in RequiredColumns && c !in columns;
        assert c in MissingRequired(columns);
      }
    }
    forall j | 0 <= j < |PriceColumns|
      ensures Validation(columns, s) == Err(NegativePrices(PriceColumns[j])) <==>
                |s| > 0 && RequiredColumns <= columns &&
                HasNegative(Healed(s), PriceColumns[j]) &&
                forall k :: 0 <= k < j ==> !HasNegative(Healed(s), PriceColumns[k])
    {
      NegativeCase(columns, s, j);
    }
  }

  /** The negative-price check over open, high, low and close, unrolled. */
  lemma FirstNegativePrice(h: seq<Kline>)
    ensures FirstNegative(h, PriceColumns) ==
      if HasNegative(h, Open) then Some(Open)
      else if HasNegative(h, High) then Some(High)
      else if HasNegative(h, Low) then Some(Low)
      else if HasNegative(h, Close) then Some(Close)
      else None
  {
    assert FirstNegative(h, [Close]) == if HasNegative(h, Close) then Some(Close) else None by {
      assert [Close][1..] == [];
    }
    assert FirstNegative(h, [Low, Close]) == if HasNegative(h, Low) then Some(Low) else FirstNegative(h, [Close]) by {
      assert [Low, Close][1..] == [Close];
    }
    assert FirstNegative(h, [High, Low, Close]) == if HasNegative(h, High) then Some(High) else FirstNegative(h, [Low, Close]) by {
      assert [High, Low, Close][1..] == [Low, Close];
    }
    assert PriceColumns[1..] == [High, Low, Close];
  }

  /** The gate rejects column `j` of the price columns exactly when the
      earlier checks pass and `j` is the first price column with a negative
      value. */
  lemma NegativeCase(columns: set<Column>, s: seq<Kline>, j: int)
    requires 0 <= j < |PriceColumns|
    ensures Validation(columns, s) == Err(NegativePrices(PriceColumns[j])) <==>
              |s| > 0 && RequiredColumns <= columns &&
              HasNegative(Healed(s), PriceColumns[j]) &&
              forall k :: 0 <= k < j ==> !HasNegative(Healed(s), PriceColumns[k])
  {
    var h := Healed(s);
    FirstNegativePrice(h);
    assert PriceColumns[0] == Open && PriceColumns[1] == High && PriceColumns[2] == Low && PriceColumns[3] == Close;
    assert MissingRequired(columns) == {} <==> RequiredColumns <= columns by {
      if !(RequiredColumns <= columns) {
        var c :| c in RequiredColumns && c !in columns;
        assert c in MissingRequired(columns);
      }
    }
    assert RequiredColumns <= columns ==> Timestamp in columns;
  }

  /** A complete frame with no nulls and no negative price passes unchanged. */
  lemma {:induction false} CleanFramePasses(columns: set<Column>, s: seq<Kline>)
    requires |s| > 0 && RequiredColumns <= columns
    requires !HasNulls(s)
    requires forall i, j :: 0 <= i < |s| && 0 <= j < |PriceColumns| && Cell(s[i], PriceColumns[j]).Some? ==>
      Cell(s[i], PriceColumns[j]).value >= 0.0
    ensures Validation(columns, s) == Ok(s)
  {
    assert Healed(s) == s;
    ValidationOrder(columns, s);
  }
}
