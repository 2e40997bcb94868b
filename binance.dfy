/**
 * The backfill tool of binance.py: it walks a time range in fixed-length
 * windows, asks the aggTrades endpoint for each window and appends one CSV
 * row per trade after a header.
 *
 * The HTTP transport is a function from (symbol, window start, window end)
 * to a response; the CSV file is the sequence of rows written to it; the
 * platform's date parsing enters as the naive millisecond timestamps and the
 * `timetz()` text of the start date.
 */
module Binance {
  import opened Wrappers
  import opened PyText

  /** The two exceptions the modelled code can raise. */
  datatype Error = ValueError | TypeError

  // ---------------------------------------------------------------------------
  // Payloads, records and rows
  // ---------------------------------------------------------------------------

  /** A decoded JSON value, passed through to the CSV unchanged. */
  datatype Json = JNull | JBool(b: bool) | JNumber(n: int) | JString(s: string)

  /** One element of the aggTrades array: a JSON object. */
  type Item = map<string, Json>

  /** `item.get(key)`: a missing key and a JSON null are both Python's None. */
  function Get(item: Item, key: string): Json {
    if key in item then item[key] else JNull
  }

  /** What one aggTrades request gives back: a RequestException, or the decoded array. */
  datatype Response = RequestFailed | Body(items: seq<Item>)

  /** `get_transactions_to_json`: a RequestException becomes None. */
  function GetTransactionsToJson(resp: Response): Option<seq<Item>>
  {
    match resp
    case RequestFailed => None
    case Body(items) => Some(items)
  }

  /** The eight fields of a BinanceObject. */
  datatype TradeRecord = TradeRecord(
    aggregateTradeId: Json,
    price: Json,
    quantity: Json,
    firstTradeId: Json,
    lastTradeId: Json,
    timeStamp: Json,
    wasTheBuyer: Json,
    wasTheTrade: Json)

  /** The CSV header, in column order. */
  const Fieldnames: seq<string> := [
    "aggregate_trade_id", "price", "quantity", "first_trade_id",
    "last_trade_id", "time_stamp", "was_the_buyer", "was_the_trade"]

  /** The payload key that run reads for each column, in the same order. */
  const PayloadKeys: seq<string> := ["a", "p", "q", "f", "l", "T", "m", "M"]

  /** The BinanceObject that run builds from one payload item. */
  function ToRecord(item: Item): TradeRecord {
    TradeRecord(
      Get(item, "a"), Get(item, "p"), Get(item, "q"), Get(item, "f"),
      Get(item, "l"), Get(item, "T"), Get(item, "m"), Get(item, "M"))
  }

  /** The dictionary that add_row_to_csv hands to `writerow`. */
  function RowDict(rec: TradeRecord): map<string, Json> {
    map[
      "aggregate_trade_id" := rec.aggregateTradeId,
      "price" := rec.price,
      "quantity" := rec.quantity,
      "first_trade_id" := rec.firstTradeId,
      "last_trade_id" := rec.lastTradeId,
      "time_stamp" := rec.timeStamp,
      "was_the_buyer" := rec.wasTheBuyer,
      "was_the_trade" := rec.wasTheTrade]
  }

  /** `DictWriter.writerow`: the values in fieldname order; a missing key writes the empty string. */
  function WriteRow(rowdict: map<string, Json>, fieldnames: seq<string>): seq<Json> {
    seq(|fieldnames|, i requires 0 <= i < |fieldnames| =>
      if fieldnames[i] in rowdict then rowdict[fieldnames[i]] else JString(""))
  }

  /** A line of the CSV file. */
  datatype CsvRow = HeaderRow(names: seq<string>) | DataRow(cells: seq<Json>)

  /** A record's eight fields in the header's column order. */
  function Cells(rec: TradeRecord): seq<Json> {
    [rec.aggregateTradeId, rec.price, rec.quantity, rec.firstTradeId,
     rec.lastTradeId, rec.timeStamp, rec.wasTheBuyer, rec.wasTheTrade]
  }

  /** The CSV line that one payload item becomes (what `writerow` writes for it, by `RecordColumns`). */
  function ItemRow(item: Item): CsvRow {
    DataRow(Cells(ToRecord(item)))
  }

  /** Column `c` of an item's row holds the value of the `c`-th payload key. */
  lemma ColumnsFollowPayloadKeys(item: Item)
    ensures |Fieldnames| == |PayloadKeys| == 8
    ensures ItemRow(item).DataRow? && |ItemRow(item).cells| == 8
    ensures forall c :: 0 <= c < 8 ==> ItemRow(item).cells[c] == Get(item, PayloadKeys[c])
  {
    RecordColumns(ToRecord(item));
  }

  /** Writing a record's dictionary puts its eight fields in declaration order. */
  lemma RecordColumns(rec: TradeRecord)
    ensures WriteRow(RowDict(rec), Fieldnames) == [
      rec.aggregateTradeId, rec.price, rec.quantity, rec.firstTradeId,
      rec.lastTradeId, rec.timeStamp, rec.wasTheBuyer, rec.wasTheTrade]
  {
    var d := RowDict(rec);
    assert Fieldnames[0] in d && d[Fieldnames[0]] == rec.aggregateTradeId;
    assert Fieldnames[1] in d && d[Fieldnames[1]] == rec.price;
    assert Fieldnames[2] in d && d[Fieldnames[2]] == rec.quantity;
    assert Fieldnames[3] in d && d[Fieldnames[3]] == rec.firstTradeId;
    assert Fieldnames[4] in d && d[Fieldnames[4]] == rec.lastTradeId;
    assert Fieldnames[5] in d && d[Fieldnames[5]] == rec.timeStamp;
    assert Fieldnames[6] in d && d[Fieldnames[6]] == rec.wasTheBuyer;
    assert Fieldnames[7] in d && d[Fieldnames[7]] == rec.wasTheTrade;
  }

  // ---------------------------------------------------------------------------
  // Time windows
  // ---------------------------------------------------------------------------

  /** The request range `[start, end)` of one iteration of run. */
  datatype Window = Window(start: int, end: int)

  /** Whether `range(_, stop, step)` still yields `x`. */
  predicate InRange(x: int, stop: int, step: int) {
    if step > 0 then x < stop else x > stop
  }

  /**
   * The windows run visits: one per value `t` of `range(start, stop, step)`,
   * each ending at `t + step`.
   */
  function Windows(start: int, stop: int, step: int): (r: seq<Window>)
    requires step != 0
    ensures r == [] <==> !InRange(start, stop, step)
    ensures r != [] ==> r[0].start == start
    ensures forall i :: 0 <= i < |r| ==> r[i].end == r[i].start + step && InRange(r[i].start, stop, step)
    decreases if step > 0 then stop - start else start - stop
  {
    if InRange(start, stop, step) then [Window(start, start + step)] + Windows(start + step, stop, step)
    else []
  }

  /**
   * The `i`-th window starts at `start + i*step` and there is one window for
   * every `i` with `start + i*step < stop`, and no other.
   */
  lemma {:induction false} WindowsAt(start: int, stop: int, step: int, i: nat)
    requires step > 0
    ensures i < |Windows(start, stop, step)| <==> start + i * step < stop
    ensures i < |Windows(start, stop, step)| ==>
      Windows(start, stop, step)[i] == Window(start + i * step, start + i * step + step)
    decreases i
  {
    if i > 0 && start < stop {
      WindowsAt(start + step, stop, step, i - 1);
      assert start + step + (i - 1) * step == start + i * step;
    } else if i > 0 {
      assert i * step >= 0;
    }
  }

  /** The windows are contiguous, ascending and each exactly `step` long. */
  lemma WindowsContiguous(start: int, stop: int, step: int)
    requires step > 0
    ensures var ws := Windows(start, stop, step);
      (forall i :: 0 <= i < |ws| ==> ws[i].end == ws[i].start + step) &&
      (forall i :: 0 < i < |ws| ==> ws[i].start == ws[i - 1].end)
  {
    var ws := Windows(start, stop, step);
    forall i | 0 <= i < |ws|
      ensures ws[i].end == ws[i].start + step
      ensures i > 0 ==> ws[i].start == ws[i - 1].end
    {
      WindowsAt(start, stop, step, i);
      if i > 0 {
        WindowsAt(start, stop, step, i - 1);
        assert start + (i - 1) * step + step == start + i * step;
      }
    }
  }

  /** `a <= b` and `k > 0` give `a*k <= b*k`. */
  lemma MulMonotone(a: int, b: int, k: int)
    requires a <= b && k > 0
    ensures a * k <= b * k
  {
    assert b * k - a * k == (b - a) * k;
  }

  /** `d / step` is the number of whole steps that fit in `d`. */
  lemma FloorStep(d: int, step: int)
    requires d >= 0 && step > 0
    ensures 0 <= d / step && (d / step) * step <= d < (d / step) * step + step
  {
    var k := d / step;
    assert d == k * step + d % step;
    if k < 0 {
      MulMonotone(k, -1, step);
    }
  }

  /** Every instant of `[start, stop)` falls in some window. */
  lemma WindowsCover(start: int, stop: int, step: int, t: int)
    requires step > 0 && start <= t < stop
    ensures var ws := Windows(start, stop, step);
      exists i :: 0 <= i < |ws| && ws[i].start <= t < ws[i].end
  {
    var k := (t - start) / step;
    FloorStep(t - start, step);
    WindowsAt(start, stop, step, k);
  }

  /** A later window starts no earlier than an earlier window ends: no two windows overlap. */
  lemma WindowsDisjoint(start: int, stop: int, step: int)
    requires step > 0
    ensures var ws := Windows(start, stop, step);
      forall i, j :: 0 <= i < j < |ws| ==> ws[i].end <= ws[j].start
  {
    var ws := Windows(start, stop, step);
    forall i, j | 0 <= i < j < |ws| ensures ws[i].end <= ws[j].start {
      WindowsAt(start, stop, step, i);
      WindowsAt(start, stop, step, j);
      MulMonotone(i + 1, j, step);
      assert (i + 1) * step == i * step + step;
    }
  }

  /**
   * The last window starts before `stop` and ends at or after it: its end is
   * not clamped to `stop`.
   */
  lemma LastWindowOvershoots(start: int, stop: int, step: int)
    requires step > 0 && start < stop
    ensures var ws := Windows(start, stop, step);
      |ws| > 0 && ws[|ws| - 1].start < stop <= ws[|ws| - 1].end
  {
    var ws := Windows(start, stop, step);
    WindowsAt(start, stop, step, 0);
    var n := |ws|;
    WindowsAt(start, stop, step, n - 1);
    WindowsAt(start, stop, step, n);
  }

  /** A 50-second range in 30-second windows: the second window ends 10 s past the range. */
  lemma UnclampedExample()
    ensures Windows(0, 50000, 30000) == [Window(0, 30000), Window(30000, 60000)]
  {
  }

  // ---------------------------------------------------------------------------
  // The rows a run writes
  // ---------------------------------------------------------------------------

  /** One row per item, in response order. */
  function ItemRows(items: seq<Item>): seq<CsvRow> {
    seq(|items|, k requires 0 <= k < |items| => ItemRow(items[k]))
  }

  /** The rows one window contributes: none when the data is None or empty (`if not json_data`). */
  function WindowRows(data: Option<seq<Item>>): seq<CsvRow> {
    if data.None? || data.value == [] then [] else ItemRows(data.value)
  }

  /** The response to one window's request. */
  function Fetched(fetch: (string, int, int) -> Response, symbol: string, w: Window): Option<seq<Item>> {
    GetTransactionsToJson(fetch(symbol, w.start, w.end))
  }

  /** The data rows written for a sequence of windows, window after window. */
  function RunRows(fetch: (string, int, int) -> Response, symbol: string, ws: seq<Window>): seq<CsvRow> {
    if ws == [] then []
    else WindowRows(Fetched(fetch, symbol, ws[0])) + RunRows(fetch, symbol, ws[1..])
  }

  /** Peeling the first window off a run: its request comes first, then its rows. */
  lemma RunRowsStep(fetch: (string, int, int) -> Response, symbol: string, start: int, stop: int, step: int)
    requires step != 0 && InRange(start, stop, step)
    ensures var w := Window(start, start + step);
      var later := Windows(start + step, stop, step);
      Windows(start, stop, step) == [w] + later
      && RunRows(fetch, symbol, Windows(start, stop, step))
        == WindowRows(Fetched(fetch, symbol, w)) + RunRows(fetch, symbol, later)
  {
    var ws := Windows(start, stop, step);
    assert ws[1..] == Windows(start + step, stop, step);
  }

  /**
   * The rows run writes from the window starting at `start` on, following
   * `range` value by value the way run's loop does.
   */
  function RowsFrom(fetch: (string, int, int) -> Response, symbol: string, start: int, stop: int, step: int): seq<CsvRow>
    requires step != 0
    decreases if step > 0 then stop - start else start - stop
  {
    if InRange(start, stop, step) then
      WindowRows(Fetched(fetch, symbol, Window(start, start + step))) + RowsFrom(fetch, symbol, start + step, stop, step)
    else []
  }

  /** Following `range` value by value writes the rows of its windows. */
  lemma {:induction false} RowsFromWindows(fetch: (string, int, int) -> Response, symbol: string, start: int, stop: int, step: int)
    requires step != 0
    ensures RowsFrom(fetch, symbol, start, stop, step) == RunRows(fetch, symbol, Windows(start, stop, step))
    decreases if step > 0 then stop - start else start - stop
  {
    if InRange(start, stop, step) {
      RowsFromWindows(fetch, symbol, start + step, stop, step);
      RunRowsStep(fetch, symbol, start, stop, step);
    }
  }

  /**
   * One turn of run's loop: if, before it, the rows and requests made so far
   * followed by those still to come from `start` on are what the whole run
   * from `first` produces on top of `rows0` and `requests0`, then after asking
   * for the window at `start` and writing its rows the same holds from the
   * next value of `range` on.
   */
  lemma LoopStep(fetch: (string, int, int) -> Response, symbol: string, first: int, start: int, stop: int, step: int,
                 rows0: seq<CsvRow>, rows: seq<CsvRow>, rows': seq<CsvRow>,
                 requests0: seq<Window>, requests: seq<Window>, requests': seq<Window>)
    requires step != 0 && InRange(start, stop, step)
    requires rows + RowsFrom(fetch, symbol, start, stop, step) == rows0 + RowsFrom(fetch, symbol, first, stop, step)
    requires requests + Windows(start, stop, step) == requests0 + Windows(first, stop, step)
    requires rows' == rows + WindowRows(Fetched(fetch, symbol, Window(start, start + step)))
    requires requests' == requests + [Window(start, start + step)]
    ensures rows' + RowsFrom(fetch, symbol, start + step, stop, step) == rows0 + RowsFrom(fetch, symbol, first, stop, step)
    ensures requests' + Windows(start + step, stop, step) == requests0 + Windows(first, stop, step)
  {
    var w := Window(start, start + step);
    var later := Windows(start + step, stop, step);
    assert Windows(start, stop, step) == [w] + later;
    ConcatAssoc(requests, [w], later);
    ConcatAssoc(rows, WindowRows(Fetched(fetch, symbol, w)), RowsFrom(fetch, symbol, start + step, stop, step));
  }

  /** The number of trades the responses for `ws` carry. */
  function ItemCount(fetch: (string, int, int) -> Response, symbol: string, ws: seq<Window>): nat {
    if ws == [] then 0
    else
      var resp := fetch(symbol, ws[0].start, ws[0].end);
      (if resp.Body? then |resp.items| else 0) + ItemCount(fetch, symbol, ws[1..])
  }

  /** The rows of consecutive window sequences are the rows of each, in order. */
  lemma {:induction false} RunRowsAppend(fetch: (string, int, int) -> Response, symbol: string, ws: seq<Window>, vs: seq<Window>)
    ensures RunRows(fetch, symbol, ws + vs) == RunRows(fetch, symbol, ws) + RunRows(fetch, symbol, vs)
  {
    if ws != [] {
      assert (ws + vs)[0] == ws[0];
      assert (ws + vs)[1..] == ws[1..] + vs;
      RunRowsAppend(fetch, symbol, ws[1..], vs);
      var head := WindowRows(Fetched(fetch, symbol, ws[0]));
      assert RunRows(fetch, symbol, ws + vs) == head + RunRows(fetch, symbol, ws[1..] + vs);
      ConcatAssoc(head, RunRows(fetch, symbol, ws[1..]), RunRows(fetch, symbol, vs));
    } else {
      assert ws + vs == vs;
    }
  }

  /**
   * A window whose request failed or came back empty adds no row, and the
   * windows after it are written as if it were not there.
   */
  lemma SkippedWindow(fetch: (string, int, int) -> Response, symbol: string, ws: seq<Window>, i: nat)
    requires i < |ws|
    requires fetch(symbol, ws[i].start, ws[i].end) == RequestFailed
          || fetch(symbol, ws[i].start, ws[i].end) == Body([])
    ensures RunRows(fetch, symbol, ws) == RunRows(fetch, symbol, ws[..i]) + RunRows(fetch, symbol, ws[i + 1..])
  {
    var tail := ws[i + 1..];
    var mid := [ws[i]] + tail;
    assert ws == ws[..i] + mid;
    assert mid[0] == ws[i] && mid[1..] == tail;
    assert WindowRows(Fetched(fetch, symbol, ws[i])) == [];
    assert RunRows(fetch, symbol, mid) == RunRows(fetch, symbol, tail);
    RunRowsAppend(fetch, symbol, ws[..i], mid);
  }

  /** Every written line is a data row of eight cells, one per trade the responses carry. */
  lemma {:induction false} RunRowsCount(fetch: (string, int, int) -> Response, symbol: string, ws: seq<Window>)
    ensures |RunRows(fetch, symbol, ws)| == ItemCount(fetch, symbol, ws)
    ensures forall k :: 0 <= k < |RunRows(fetch, symbol, ws)| ==>
      RunRows(fetch, symbol, ws)[k].DataRow? && |RunRows(fetch, symbol, ws)[k].cells| == 8
  {
    if ws != [] {
      RunRowsCount(fetch, symbol, ws[1..]);
      var data := Fetched(fetch, symbol, ws[0]);
      var head := WindowRows(data);
      assert RunRows(fetch, symbol, ws) == head + RunRows(fetch, symbol, ws[1..]);
      forall k | 0 <= k < |head| ensures head[k].DataRow? && |head[k].cells| == 8 {
      }
    }
  }

  /** The file a run leaves behind: the header, then the rows of every window. */
  function CsvFile(fetch: (string, int, int) -> Response, symbol: string, startTime: int, endTime: int, interval: int): seq<CsvRow>
    requires interval != 0
  {
    [HeaderRow(Fieldnames)] + RunRows(fetch, symbol, Windows(startTime, endTime, interval))
  }

  lemma ConcatAssoc<T>(a: seq<T>, b: seq<T>, c: seq<T>)
    ensures (a + b) + c == a + (b + c)
  {
  }

  // ---------------------------------------------------------------------------
  // Timestamps and the timezone offset
  // ---------------------------------------------------------------------------

  /**
   * `find_delta_timezone` on the text of `timetz()`: the hours field after
   * the last `+` (or, only when `+` is the first character, after the last
   * `-`), cut at the first `:`, in milliseconds; negated in the `-` case.
   */
  function FindDeltaTimezone(tz: string): (r: Result<int, Error>)
    ensures r.Failure? ==> r.error == ValueError
    ensures r.Success? ==> r.value % (3600 * 1000) == 0
  {
    var valueSymbol := Find(tz, '+') != 0;
    var part := if valueSymbol then AfterLast(tz, '+') else AfterLast(tz, '-');
    match ParseInt(BeforeFirst(part, ':'))
    case None => Failure(ValueError)
    case Some(value) =>
      WholeHours(value);
      Success(if valueSymbol then value * 3600 * 1000 else -1 * (value * 3600 * 1000))
  }

  /** A whole number of hours, either sign, in milliseconds. */
  lemma WholeHours(value: int)
    ensures (value * 3600 * 1000) % (3600 * 1000) == 0
    ensures (-1 * (value * 3600 * 1000)) % (3600 * 1000) == 0
  {
    assert value * 3600 * 1000 == value * 3600000;
    assert -1 * (value * 3600 * 1000) == (-value) * 3600000;
  }

  /** The text `str(t.timetz())` of an aware time with whole seconds: `HH:MM:SS±hh:mm`. */
  function TzText(hour: nat, minute: nat, second: nat, sign: char, offHours: nat, offMinutes: nat): string
    requires hour < 100 && minute < 100 && second < 100 && offHours < 100 && offMinutes < 100
  {
    Pad2(hour) + ":" + Pad2(minute) + ":" + Pad2(second) + [sign] + Pad2(offHours) + ":" + Pad2(offMinutes)
  }

  /** East of UTC: the offset's hours in milliseconds; the offset's minutes are dropped. */
  lemma DeltaEastOfUtc(hour: nat, minute: nat, second: nat, offHours: nat, offMinutes: nat)
    requires hour < 24 && minute < 60 && second < 60 && offHours < 24 && offMinutes < 60
    ensures FindDeltaTimezone(TzText(hour, minute, second, '+', offHours, offMinutes))
      == Success(offHours * 3600 * 1000)
  {
    var clock := Pad2(hour) + ":" + Pad2(minute) + ":" + Pad2(second);
    var offset := Pad2(offHours) + ":" + Pad2(offMinutes);
    var tz := TzText(hour, minute, second, '+', offHours, offMinutes);
    assert tz == clock + ['+'] + offset;
    assert tz[0] == Pad2(hour)[0];
    AfterLastOfJoin(clock, '+', offset);
    assert offset == Pad2(offHours) + [':'] + Pad2(offMinutes);
    BeforeFirstOfJoin(Pad2(offHours), ':', Pad2(offMinutes));
    ParsePad2(offHours);
  }

  /**
   * West of UTC the `+` branch is still taken (`find` gives -1, which is
   * truthy): the result is the positive clock hour of the time itself.
   */
  lemma DeltaWestOfUtc(hour: nat, minute: nat, second: nat, offHours: nat, offMinutes: nat)
    requires hour < 24 && minute < 60 && second < 60 && offHours < 24 && offMinutes < 60
    ensures FindDeltaTimezone(TzText(hour, minute, second, '-', offHours, offMinutes))
      == Success(hour * 3600 * 1000)
  {
    var tz := TzText(hour, minute, second, '-', offHours, offMinutes);
    var rest := Pad2(minute) + ":" + Pad2(second) + ['-'] + Pad2(offHours) + ":" + Pad2(offMinutes);
    assert tz == Pad2(hour) + [':'] + rest;
    assert forall k :: 0 <= k < |tz| ==> tz[k] != '+';
    assert AfterLast(tz, '+') == tz;
    BeforeFirstOfJoin(Pad2(hour), ':', rest);
    ParsePad2(hour);
  }

  /**
   * Unless the text starts with `+`, the offset found is never negative.
   * The model's `int()` reads unsigned digits only; Python's also reads a
   * sign, so on a text such as `00:00:00+-05:00` the two differ.
   */
  lemma DeltaNeverNegative(tz: string)
    requires tz == [] || tz[0] != '+'
    ensures FindDeltaTimezone(tz).Success? ==> FindDeltaTimezone(tz).value >= 0
  {
    assert Find(tz, '+') != 0;
  }
  /** On every `timetz()` text, east or west of UTC, an offset is found and it is never negative. */
  lemma TimetzDeltaNeverNegative(hour: nat, minute: nat, second: nat, sign: char, offHours: nat, offMinutes: nat)
    requires hour < 24 && minute < 60 && second < 60 && offHours < 24 && offMinutes < 60
    requires sign == '+' || sign == '-'
    ensures FindDeltaTimezone(TzText(hour, minute, second, sign, offHours, offMinutes)).Success?
    ensures FindDeltaTimezone(TzText(hour, minute, second, sign, offHours, offMinutes)).value >= 0
  {
    if sign == '+' {
      DeltaEastOfUtc(hour, minute, second, offHours, offMinutes);
    } else {
      DeltaWestOfUtc(hour, minute, second, offHours, offMinutes);
    }
  }


  /**
   * `get_timestamp`: a non-zero interval in seconds becomes milliseconds;
   * otherwise the date's (naive, millisecond) timestamp is used, and with
   * no date the call fails inside `strptime` with a TypeError.
   */
  function GetTimestamp(dateMs: Option<int>, interval: Option<int>): Result<int, Error> {
    if interval.Some? && interval.value != 0 then Success(interval.value * 1000)
    else if dateMs.Some? then Success(dateMs.value)
    else Failure(TypeError)
  }

  /** A non-zero interval wins over any date and is scaled to milliseconds. */
  lemma IntervalWins(dateMs: Option<int>, interval: int)
    requires interval != 0
    ensures GetTimestamp(dateMs, Some(interval)) == Success(interval * 1000)
    ensures GetTimestamp(dateMs, Some(interval)).value / 1000 == interval
  {
  }

  /**
   * An interval of 0 is falsy and is ignored: the date is used instead, and
   * without a date the call fails with a TypeError.
   */
  lemma ZeroIntervalFallsThrough(dateMs: Option<int>)
    ensures GetTimestamp(dateMs, Some(0)) == GetTimestamp(dateMs, None)
    ensures GetTimestamp(None, Some(0)) == Failure(TypeError)
    ensures dateMs.Some? ==> GetTimestamp(dateMs, Some(0)) == Success(dateMs.value)
  {
  }

  /** A naive timestamp moved by the offset found from `tz`, as `__init__` moves both ends. */
  function Shifted(dateMs: int, tz: string): int
    requires FindDeltaTimezone(tz).Success?
  {
    dateMs + FindDeltaTimezone(tz).value
  }

  // ---------------------------------------------------------------------------
  // The analyzer
  // ---------------------------------------------------------------------------

  /**
   * The times `__init__` computes: the offset found from the start date,
   * both ends moved by it, and the interval in milliseconds.
   */
  method InitTimes(startDateMs: int, endDateMs: int, startTz: string, interval: int)
    returns (delta: int, startTime: int, endTime: int, step: int)
    requires FindDeltaTimezone(startTz).Success?
    requires interval != 0
    ensures delta == FindDeltaTimezone(startTz).value
    ensures startTime == startDateMs + delta && endTime == endDateMs + delta
    ensures endTime - startTime == endDateMs - startDateMs
    ensures step == interval * 1000 && step != 0
  {
    delta := FindDeltaTimezone(startTz).value;
    var startMs, endMs := GetTimestamp(Some(startDateMs), None), GetTimestamp(Some(endDateMs), None);
    var intervalMs := GetTimestamp(None, Some(interval));
    assert startMs == Success(startDateMs) && endMs == Success(endDateMs) && intervalMs == Success(interval * 1000);
    startTime := startMs.value + delta;
    endTime := endMs.value + delta;
    step := intervalMs.value;
  }

  class BinanceAnalyzer {
    const symbol: string
    const delta: int
    const startTime: int
    const endTime: int
    const interval: int
    /** The contents of the CSV file. */
    var rows: seq<CsvRow>
    /** The aggTrades windows requested so far, in order. */
    ghost var requests: seq<Window>

    /**
     * `__init__`: one offset, found from the start date, shifts both ends;
     * the interval is turned into milliseconds.
     */
    constructor (symbol: string, startDateMs: int, endDateMs: int, startTz: string, interval: int)
      requires FindDeltaTimezone(startTz).Success?
      requires interval != 0
      ensures this.symbol == symbol
      ensures delta == FindDeltaTimezone(startTz).value
      ensures startTime == startDateMs + delta && endTime == endDateMs + delta
      ensures endTime - startTime == endDateMs - startDateMs
      ensures this.interval == interval * 1000 && this.interval != 0
      ensures rows == [] && requests == []
    {
      var d, start, end, step := InitTimes(startDateMs, endDateMs, startTz, interval);
      this.symbol := symbol;
      delta := d;
      startTime := start;
      endTime := end;
      this.interval := step;
      rows := [];
      requests := [];
    }

    /** `create_csv_file`: the file is truncated to the header line. */
    method CreateCsvFile()
      modifies this`rows
      ensures rows == [HeaderRow(Fieldnames)]
    {
      rows := [HeaderRow(Fieldnames)];
    }

    /** `add_row_to_csv`: one line is appended; the earlier lines stay as they were. */
    method AddRowToCsv(transactionData: TradeRecord)
      modifies this`rows
      ensures rows == old(rows) + [DataRow(WriteRow(RowDict(transactionData), Fieldnames))]
    {
      rows := rows + [DataRow(WriteRow(RowDict(transactionData), Fieldnames))];
    }

    /**
     * `run`: the header, then the rows of every window of
     * `range(startTime, endTime, interval)` in order; one request per window.
     */
    method Run(fetch: (string, int, int) -> Response)
      requires interval != 0
      modifies this`rows, this`requests
      ensures rows == CsvFile(fetch, symbol, startTime, endTime, interval)
      ensures requests == old(requests) + Windows(startTime, endTime, interval)
    {
      CreateCsvFile();
      RunWindows(fetch);
      RowsFromWindows(fetch, symbol, startTime, endTime, interval);
    }

    /**
     * run's `for start in range(start_time, end_time, interval)` loop: one
     * request per value, then that window's rows.
     */
    method RunWindows(fetch: (string, int, int) -> Response)
      requires interval != 0
      modifies this`rows, this`requests
      ensures rows == old(rows) + RowsFrom(fetch, symbol, startTime, endTime, interval)
      ensures requests == old(requests) + Windows(startTime, endTime, interval)
    {
      var start := startTime;
      while InRange(start, endTime, interval)
        invariant rows + RowsFrom(fetch, symbol, start, endTime, interval)
          == old(rows) + RowsFrom(fetch, symbol, startTime, endTime, interval)
        invariant requests + Windows(start, endTime, interval)
          == old(requests) + Windows(startTime, endTime, interval)
        decreases if interval > 0 then endTime - start else start - endTime
      {
        ProcessWindow(fetch, start, old(rows), old(requests));
        start := start + interval;
      }
    }

    /**
     * One pass of run's loop body: the window `[start, start + interval)` is
     * requested and its rows written, which keeps the loop's account of the
     * run (what is done plus what is still to come) from `start + interval` on.
     */
    method ProcessWindow(fetch: (string, int, int) -> Response, start: int,
                         ghost rows0: seq<CsvRow>, ghost requests0: seq<Window>)
      requires interval != 0 && InRange(start, endTime, interval)
      requires rows + RowsFrom(fetch, symbol, start, endTime, interval)
        == rows0 + RowsFrom(fetch, symbol, startTime, endTime, interval)
      requires requests + Windows(start, endTime, interval)
        == requests0 + Windows(startTime, endTime, interval)
      modifies this`rows, this`requests
      ensures rows + RowsFrom(fetch, symbol, start + interval, endTime, interval)
        == rows0 + RowsFrom(fetch, symbol, startTime, endTime, interval)
      ensures requests + Windows(start + interval, endTime, interval)
        == requests0 + Windows(startTime, endTime, interval)
    {
      var jsonData := RequestWindow(fetch, start, start + interval);
      WriteItems(jsonData);
      LoopStep(fetch, symbol, startTime, start, endTime, interval,
               rows0, old(rows), rows, requests0, old(requests), requests);
    }

    /** `get_transactions_to_json` for one window: one aggTrades request, recorded in `requests`. */
    method RequestWindow(fetch: (string, int, int) -> Response, startTime: int, endTime: int)
      returns (jsonData: Option<seq<Item>>)
      modifies this`requests
      ensures jsonData == Fetched(fetch, symbol, Window(startTime, endTime))
      ensures requests == old(requests) + [Window(startTime, endTime)]
    {
      jsonData := GetTransactionsToJson(fetch(symbol, startTime, endTime));
      requests := requests + [Window(startTime, endTime)];
    }

    /** The body of run's loop for one response: nothing for None or [], else one row per item. */
    method WriteItems(jsonData: Option<seq<Item>>)
      modifies this`rows
      ensures rows == old(rows) + WindowRows(jsonData)
    {
      if jsonData.None? || jsonData.value == [] {
        return;
      }
      var items := jsonData.value;
      var j := 0;
      while j < |items|
        invariant 0 <= j <= |items|
        invariant rows == old(rows) + ItemRows(items[..j])
      {
        AddRowToCsv(ToRecord(items[j]));
        RecordColumns(ToRecord(items[j]));
        assert ItemRows(items[..j + 1]) == ItemRows(items[..j]) + [ItemRow(items[j])];
        j := j + 1;
      }
      assert items[..j] == items;
    }
  }

  // ---------------------------------------------------------------------------
  // main
  // ---------------------------------------------------------------------------

  /** One position of the date pattern: a character range or a literal. */
  datatype CharClass = Between(lo: char, hi: char) | Exactly(ch: char)

  predicate Holds(cls: CharClass, ch: char) {
    match cls
    case Between(lo, hi) => lo <= ch <= hi
    case Exactly(c) => ch == c
  }

  const Digit: CharClass := Between('0', '9')

  /** `^[0-3][\d]-[0-1][\d]-[\d]{4} [0-2][\d]:[0-6][\d]:[0-6][\d]`, one class per character. */
  const DatePattern: seq<CharClass> := [
    Between('0', '3'), Digit, Exactly('-'), Between('0', '1'), Digit, Exactly('-'),
    Digit, Digit, Digit, Digit, Exactly(' '),
    Between('0', '2'), Digit, Exactly(':'), Between('0', '6'), Digit, Exactly(':'),
    Between('0', '6'), Digit]

  /** `re.match` of a fixed-length pattern: the string begins with a match. */
  function MatchPrefix(s: string, pattern: seq<CharClass>): bool {
    if pattern == [] then true
    else if s == [] then false
    else Holds(pattern[0], s[0]) && MatchPrefix(s[1..], pattern[1..])
  }

  /** The string begins with one character of each class of the pattern, position by position. */
  lemma {:induction false} MatchPrefixSpec(s: string, pattern: seq<CharClass>)
    ensures MatchPrefix(s, pattern) <==>
      |s| >= |pattern| && forall i :: 0 <= i < |pattern| ==> Holds(pattern[i], s[i])
  {
    if pattern != [] && s != [] {
      MatchPrefixSpec(s[1..], pattern[1..]);
      if Holds(pattern[0], s[0]) && MatchPrefix(s[1..], pattern[1..]) {
        forall i | 0 <= i < |pattern| ensures Holds(pattern[i], s[i]) {
          if i > 0 {
            assert pattern[1..][i - 1] == pattern[i] && s[1..][i - 1] == s[i];
          }
        }
      } else if |s| >= |pattern| && Holds(pattern[0], s[0]) {
        var i :| 0 <= i < |pattern[1..]| && !Holds(pattern[1..][i], s[1..][i]);
        assert !Holds(pattern[i + 1], s[i + 1]);
      }
    }
  }

  /** `check_data`: a ValueError unless the text begins with a match of the date pattern. */
  function CheckData(date: string): (r: Outcome<Error>)
    ensures r == Pass || r == Fail(ValueError)
  {
    if MatchPrefix(date, DatePattern) then Pass else Fail(ValueError)
  }

  /** The date shape the pattern accepts, written out character by character. */
  predicate DateShaped(s: string) {
    |s| >= 19
    && '0' <= s[0] <= '3' && IsDigit(s[1]) && s[2] == '-'
    && '0' <= s[3] <= '1' && IsDigit(s[4]) && s[5] == '-'
    && IsDigit(s[6]) && IsDigit(s[7]) && IsDigit(s[8]) && IsDigit(s[9]) && s[10] == ' '
    && '0' <= s[11] <= '2' && IsDigit(s[12]) && s[13] == ':'
    && '0' <= s[14] <= '6' && IsDigit(s[15]) && s[16] == ':'
    && '0' <= s[17] <= '6' && IsDigit(s[18])
  }

  /** check_data passes exactly the strings of the written-out date shape; it fails with ValueError otherwise. */
  lemma CheckDataSpec(date: string)
    ensures CheckData(date) == Pass <==> DateShaped(date)
    ensures CheckData(date) != Pass ==> CheckData(date) == Fail(ValueError)
  {
    MatchPrefixSpec(date, DatePattern);
    if DateShaped(date) {
      ShapedMatches(date);
    } else if |date| >= |DatePattern| && forall i :: 0 <= i < |DatePattern| ==> Holds(DatePattern[i], date[i]) {
      MatchesShaped(date);
    }
  }

  lemma ShapedMatches(date: string)
    requires DateShaped(date)
    ensures forall i :: 0 <= i < |DatePattern| ==> Holds(DatePattern[i], date[i])
  {
  }

  lemma MatchesShaped(date: string)
    requires |date| >= |DatePattern|
    requires forall i :: 0 <= i < |DatePattern| ==> Holds(DatePattern[i], date[i])
    ensures DateShaped(date)
  {
    assert Holds(DatePattern[0], date[0]) && Holds(DatePattern[1], date[1]) && Holds(DatePattern[2], date[2]);
    assert Holds(DatePattern[3], date[3]) && Holds(DatePattern[4], date[4]) && Holds(DatePattern[5], date[5]);
    assert Holds(DatePattern[6], date[6]) && Holds(DatePattern[7], date[7]) && Holds(DatePattern[8], date[8]);
    assert Holds(DatePattern[9], date[9]) && Holds(DatePattern[10], date[10]) && Holds(DatePattern[11], date[11]);
    assert Holds(DatePattern[12], date[12]) && Holds(DatePattern[13], date[13]) && Holds(DatePattern[14], date[14]);
    assert Holds(DatePattern[15], date[15]) && Holds(DatePattern[16], date[16]) && Holds(DatePattern[17], date[17]);
    assert Holds(DatePattern[18], date[18]);
  }

  /** Out-of-calendar values such as day 39, month 19 or hour 29 pass. */
  lemma CheckDataLoose()
    ensures CheckData("39-19-0000 29:69:69") == Pass
  {
    CheckDataSpec("39-19-0000 29:69:69");
  }

  /** Text after the first 19 characters is not looked at. */
  lemma CheckDataIgnoresTail(date: string, tail: string)
    requires |date| >= |DatePattern|
    ensures CheckData(date + tail) == CheckData(date)
  {
    CheckDataSpec(date);
    CheckDataSpec(date + tail);
    assert forall i :: 0 <= i < |date| ==> (date + tail)[i] == date[i];
  }

  /** A date in the expected DD-MM-YYYY HH:MM:SS form passes. */
  lemma CheckDataWellFormed()
    ensures CheckData("22-12-2021 12:11:40") == Pass
  {
    CheckDataSpec("22-12-2021 12:11:40");
  }

  /** A year-first date fails with ValueError. */
  lemma CheckDataYearFirst()
    ensures CheckData("2021-12-22 12:11:40") == Fail(ValueError)
  {
    CheckDataSpec("2021-12-22 12:11:40");
  }

  /** What `input()` can hand back: it is always a str. */
  datatype PyValue = PyStr(s: string) | PyInt(i: int)

  /** main, line 172: `int(interval) if isinstance(interval, int) else 30`. */
  function CoerceInterval(v: PyValue): int
  {
    if v.PyInt? then v.i else 30
  }

  /** main, line 178: the interval is kept when it is non-zero and in `range(10, 181)`, otherwise 30. */
  function ClampInterval(interval: int): (r: int)
    ensures 10 <= r <= 180
    ensures 10 <= interval <= 180 ==> r == interval
    ensures !(10 <= interval <= 180) ==> r == 30
  {
    if interval != 0 && 10 <= interval < 181 then interval else 30
  }

  /** Since `input()` yields a str, the interval main passes on is 30 seconds whatever is typed. */
  lemma MainIntervalIs30(answer: string)
    ensures ClampInterval(CoerceInterval(PyStr(answer))) == 30
  {
  }

  /**
   * `main` after the prompts: both dates are checked, the interval is
   * chosen, the analyzer is built and run; the result is the CSV file.
   * The naive timestamps and the start date's `timetz()` text stand for
   * the platform's reading of the two dates.
   */
  method RunMain(symbol: string, startDate: string, endDate: string, intervalAnswer: string,
                 startDateMs: int, endDateMs: int, startTz: string,
                 fetch: (string, int, int) -> Response)
    returns (r: Result<seq<CsvRow>, Error>)
    ensures CheckData(startDate).Fail? || CheckData(endDate).Fail? ==> r == Failure(ValueError)
    ensures CheckData(startDate).Pass? && CheckData(endDate).Pass? && FindDeltaTimezone(startTz).Failure?
      ==> r == Failure(ValueError)
    ensures CheckData(startDate).Pass? && CheckData(endDate).Pass? && FindDeltaTimezone(startTz).Success?
      ==> r == Success(CsvFile(fetch, symbol, Shifted(startDateMs, startTz), Shifted(endDateMs, startTz), 30000))
  {
    if CheckData(startDate).Fail? {
      return Failure(ValueError);
    }
    if CheckData(endDate).Fail? {
      return Failure(ValueError);
    }
    var interval := CoerceInterval(PyStr(intervalAnswer));
    MainIntervalIs30(intervalAnswer);
    if FindDeltaTimezone(startTz).Failure? {
      return Failure(FindDeltaTimezone(startTz).error);
    }
    var obj := new BinanceAnalyzer(symbol, startDateMs, endDateMs, startTz, ClampInterval(interval));
    assert obj.interval == 30000;
    assert obj.startTime == Shifted(startDateMs, startTz) && obj.endTime == Shifted(endDateMs, startTz);
    obj.Run(fetch);
    return Success(obj.rows);
  }
}
