/**
 * Rows of the per-line commit log (`loc.csv`) and the row callback that
 * `loadData` hands to `d3.csv` (meta/main.js, lines 7-17).
 *
 * A CSV row is a record from column name to text. After the callback a row
 * keeps every column of the CSV row and has `line`, `depth`, `length`, `date`
 * and `datetime` replaced (or added when the CSV lacks them): the first three by
 * numeric coercion, the last two by Date objects.
 *
 * The browser and d3 services the callback calls are parameters (Host):
 * `d3.timeParse('%Y-%m-%d %H:%M:%S')`, the `Date` constructor applied to a
 * string, and unary `+` on a string.
 */
module Rows {
  import opened Wrappers

  type Hour = h: int | 0 <= h < 24
  type Minute = m: int | 0 <= m < 60

  /** A valid point in time: its milliseconds since the epoch and its local hour and minute. */
  datatype Instant = Instant(epochMs: int, hour: Hour, minute: Minute)

  /** A JavaScript Date object: a valid time, or an Invalid Date (whose getters give NaN). */
  datatype Date = Valid(at: Instant) | Invalid

  /** A JavaScript number produced by unary `+`: a finite value or NaN. */
  datatype Num = Finite(value: real) | NaN

  /** A field value of a row. */
  datatype Value = Text(s: string) | Number(n: Num) | Time(d: Date)

  type RawRow = map<string, string>
  type Row = map<string, Value>

  /** A row whose `datetime` field holds a Date object, as every normalised row does. */
  type DatedRow = r: Row | "datetime" in r && r["datetime"].Time?
    witness map["datetime" := Time(Invalid)]

  /**
   * The host services the row callback uses. A missing `datetime` column is
   * passed to both parsers as the text "undefined"; the source's
   * `new Date(undefined)` is then always an Invalid Date, which `newDate` is
   * not constrained to return.
   */
  datatype Host = Host(
    timeParse: string -> Option<Instant>,  // d3.timeParse('%Y-%m-%d %H:%M:%S'): a Date or null
    newDate: string -> Date,               // new Date(string)
    toNumber: string -> Num)               // unary + on a string

  /** Reading a field: `undefined` (None) when the row has no such column. */
  function Lookup<V>(row: map<string, V>, column: string): (v: Option<V>)
    ensures v.Some? <==> column in row
    ensures v.Some? ==> v.value == row[column]
  {
    if column in row then Some(row[column]) else None
  }

  /** The accessor `d => d[column]`, as a key function for grouping. */
  function RowKey(column: string): Row -> Option<Value>
  {
    (r: Row) => Lookup(r, column)
  }

  /** A field converted to text as string concatenation does: a missing one reads "undefined". */
  function FieldText(raw: RawRow, column: string): string
  {
    if column in raw then raw[column] else "undefined"
  }

  /** `+row[column]`: a missing field coerces to NaN. */
  function NumberField(host: Host, raw: RawRow, column: string): (n: Num)
    ensures column !in raw ==> n == NaN
    ensures column in raw ==> n == host.toNumber(raw[column])
  {
    if column in raw then host.toNumber(raw[column]) else NaN
  }

  /** The columns the callback rewrites. */
  const Rewritten: set<string> := {"line", "depth", "length", "date", "datetime"}

  /** `parseDateTime(row.datetime) || new Date(row.datetime)`. */
  function ParseDateTime(host: Host, raw: RawRow): (d: Date)
    ensures host.timeParse(FieldText(raw, "datetime")).Some? ==>
              d == Valid(host.timeParse(FieldText(raw, "datetime")).value)
    ensures host.timeParse(FieldText(raw, "datetime")).None? ==>
              d == host.newDate(FieldText(raw, "datetime"))
  {
    var stamp := FieldText(raw, "datetime");
    match host.timeParse(stamp)
    case Some(t) => Valid(t)
    case None => host.newDate(stamp)
  }

  /** The text given to `new Date` for the `date` field: date, midnight, then the zone if any. */
  function DateText(raw: RawRow): string
  {
    FieldText(raw, "date") + "T00:00" + (if "timezone" in raw then raw["timezone"] else "")
  }

  /** The row callback: `{...row, line: +row.line, depth: +row.depth, length: +row.length, date, datetime}`. */
  function Normalize(host: Host, raw: RawRow): (r: DatedRow)
    ensures r.Keys == raw.Keys + Rewritten
    ensures forall c :: c in raw && c !in Rewritten ==> r[c] == Text(raw[c])
    ensures r["line"] == Number(NumberField(host, raw, "line"))
    ensures r["depth"] == Number(NumberField(host, raw, "depth"))
    ensures r["length"] == Number(NumberField(host, raw, "length"))
    ensures r["date"] == Time(host.newDate(DateText(raw)))
    ensures r["datetime"] == Time(ParseDateTime(host, raw))
  {
    var carried := map c | c in raw :: Text(raw[c]);
    carried["line" := Number(NumberField(host, raw, "line"))]
           ["depth" := Number(NumberField(host, raw, "depth"))]
           ["length" := Number(NumberField(host, raw, "length"))]
           ["date" := Time(host.newDate(DateText(raw)))]
           ["datetime" := Time(ParseDateTime(host, raw))]
  }

  /** `d3.csv` with the row callback: every CSV row, normalised, in file order. */
  function LoadRows(host: Host, raws: seq<RawRow>): (data: seq<DatedRow>)
    ensures |data| == |raws|
    ensures forall i :: 0 <= i < |raws| ==> data[i] == Normalize(host, raws[i])
  {
    seq(|raws|, i requires 0 <= i < |raws| => Normalize(host, raws[i]))
  }
}
