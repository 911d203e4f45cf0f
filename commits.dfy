/**
 * `processCommits` (meta/main.js, lines 22-43): the normalised rows grouped by
 * commit id into one commit record per group, in first-appearance order.
 */
module Commits {
  import opened Wrappers
  import opened Rows
  import opened Groups

  const CommitUrlBase: string := "https://github.com/jackkalsched/portfolio/commit/"

  /** `hours + minutes / 60` of a Date, NaN for an Invalid Date, null when not a Date. */
  datatype HourFrac = Frac(value: real) | NaN | Null

  /**
   * One commit. `lines` is the group's rows, which the source attaches as a
   * non-enumerable property.
   */
  datatype Commit = Commit(
    id: Option<Value>,
    url: string,
    author: Option<Value>,
    date: Option<Value>,
    time: Option<Value>,
    timezone: Option<Value>,
    datetime: Option<Value>,
    hourFrac: HourFrac,
    totalLines: nat,
    lines: seq<Row>)

  /** The grouping column: `commit` when the first row has it, `commit_hash` otherwise. */
  function KeyColumn(first: Row): (c: string)
    ensures c == "commit" <==> "commit" in first
    ensures c != "commit" ==> c == "commit_hash"
  {
    if "commit" in first then "commit" else "commit_hash"
  }

  /** The id as string concatenation renders it; `show` is String() of a non-text value. */
  function KeyText(id: Option<Value>, show: Value -> string): (s: string)
    ensures id == None ==> s == "undefined"
    ensures id.Some? && id.value.Text? ==> s == id.value.s
  {
    match id
    case None => "undefined"
    case Some(Text(s)) => s
    case Some(v) => show(v)
  }

  /** `datetime instanceof Date ? datetime.getHours() + datetime.getMinutes() / 60 : null`. */
  function HourFraction(datetime: Option<Value>): (h: HourFrac)
    ensures h.Frac? <==> datetime.Some? && datetime.value.Time? && datetime.value.d.Valid?
    ensures h.NaN? <==> datetime == Some(Time(Invalid))
    ensures h.Null? <==> !(datetime.Some? && datetime.value.Time?)
    ensures h.Frac? ==> 0.0 <= h.value < 24.0
    ensures h.Frac? ==> h.value.Floor == datetime.value.d.at.hour
    ensures h.Frac? ==> (h.value - h.value.Floor as real) * 60.0 == datetime.value.d.at.minute as real
  {
    match datetime
    case Some(Time(Valid(t))) => Frac(t.hour as real + t.minute as real / 60.0)
    case Some(Time(Invalid)) => HourFrac.NaN
    case _ => Null
  }

  /** The record built from one group; `f` is its first row. */
  function MakeCommit(g: Group<Option<Value>, Row>, show: Value -> string): (c: Commit)
    requires g.rows != []
    ensures c.id == g.key && c.lines == g.rows
    ensures c.totalLines == |c.lines| > 0
    ensures c.url == CommitUrlBase + KeyText(c.id, show)
    ensures c.author == Lookup(c.lines[0], "author")
    ensures c.date == Lookup(c.lines[0], "date")
    ensures c.time == Lookup(c.lines[0], "time")
    ensures c.timezone == Lookup(c.lines[0], "timezone")
    ensures c.datetime == Lookup(c.lines[0], "datetime")
    ensures c.hourFrac == HourFraction(c.datetime)
  {
    var f := g.rows[0];
    Commit(
      id := g.key,
      url := CommitUrlBase + KeyText(g.key, show),
      author := Lookup(f, "author"),
      date := Lookup(f, "date"),
      time := Lookup(f, "time"),
      timezone := Lookup(f, "timezone"),
      datetime := Lookup(f, "datetime"),
      hourFrac := HourFraction(Lookup(f, "datetime")),
      totalLines := |g.rows|,
      lines := g.rows)
  }

  /** `processCommits(data)`; `None` stands for a missing `data`. */
  function ProcessCommits(data: Option<seq<Row>>, show: Value -> string): (commits: seq<Commit>)
    ensures data.None? || data.value == [] ==> commits == []
    ensures data.Some? && data.value != [] ==> 0 < |commits| <= |data.value|
    ensures forall i :: 0 <= i < |commits| ==> commits[i].totalLines == |commits[i].lines| > 0
    ensures forall i :: 0 <= i < |commits| ==>
              commits[i].url == CommitUrlBase + KeyText(commits[i].id, show)
  {
    if data.None? || data.value == [] then []
    else
      var gs := GroupBy(data.value, RowKey(KeyColumn(data.value[0])));
      seq(|gs|, i requires 0 <= i < |gs| => MakeCommit(gs[i], show))
  }

  /** Sum of `totalLines` over commits. */
  function SumLines(commits: seq<Commit>): nat
  {
    if commits == [] then 0 else commits[0].totalLines + SumLines(commits[1..])
  }

  lemma {:induction false} SumLinesOfGroups(commits: seq<Commit>, gs: seq<Group<Option<Value>, Row>>)
    requires |commits| == |gs|
    requires forall i :: 0 <= i < |gs| ==> commits[i].totalLines == |gs[i].rows|
    ensures SumLines(commits) == TotalSize(gs)
  {
    if gs != [] {
      SumLinesOfGroups(commits[1..], gs[1..]);
    }
  }

  /** The commits are the groups of `d3.groups`, one record each. */
  lemma CommitsOfGroups(data: seq<Row>, show: Value -> string)
    requires data != []
    ensures var commits, gs := ProcessCommits(Some(data), show), GroupBy(data, RowKey(KeyColumn(data[0])));
      |commits| == |gs| && forall i :: 0 <= i < |gs| ==> commits[i] == MakeCommit(gs[i], show)
  {
  }

  /**
   * One commit per key value: ids are distinct and each commit holds exactly
   * the rows with its id, so its `totalLines` is the number of those rows.
   */
  lemma CommitsMatchKeys(data: seq<Row>, show: Value -> string)
    requires data != []
    ensures var commits, key := ProcessCommits(Some(data), show), RowKey(KeyColumn(data[0]));
      && (forall i, j :: 0 <= i < j < |commits| ==> commits[i].id != commits[j].id)
      && (forall i :: 0 <= i < |commits| ==> commits[i].lines == Matching(data, key, commits[i].id))
      && (forall i :: 0 <= i < |commits| ==> commits[i].totalLines == Count(data, key, commits[i].id))
  {
    var key := RowKey(KeyColumn(data[0]));
    GroupByCorrect(data, key);
    CommitsOfGroups(data, show);
  }

  /** Every row belongs to the commit of its id. */
  lemma CommitsCoverRows(data: seq<Row>, show: Value -> string)
    requires data != []
    ensures var commits, key := ProcessCommits(Some(data), show), RowKey(KeyColumn(data[0]));
      forall p :: 0 <= p < |data| ==> exists i :: 0 <= i < |commits| && commits[i].id == key(data[p])
  {
    var commits, key := ProcessCommits(Some(data), show), RowKey(KeyColumn(data[0]));
    var gs := GroupBy(data, key);
    GroupByCorrect(data, key);
    CommitsOfGroups(data, show);
    forall p | 0 <= p < |data| ensures exists i :: 0 <= i < |commits| && commits[i].id == key(data[p]) {
      var i := IndexOfKey(gs, key(data[p]));
      assert commits[i].id == key(data[p]);
    }
  }

  /** The line totals of all commits add up to the number of rows. */
  lemma CommitLinesSumToRows(data: Option<seq<Row>>, show: Value -> string)
    ensures SumLines(ProcessCommits(data, show)) == if data.None? then 0 else |data.value|
  {
    if data.Some? && data.value != [] {
      var key := RowKey(KeyColumn(data.value[0]));
      CommitsOfGroups(data.value, show);
      GroupBySize(data.value, key);
      SumLinesOfGroups(ProcessCommits(data, show), GroupBy(data.value, key));
    }
  }

  /**
   * Commits come in the order their ids first occur in the rows, and each
   * commit's first row (the one its author, date, time, timezone and datetime
   * are read from) is the first row with its id.
   */
  lemma CommitsInFirstAppearanceOrder(data: seq<Row>, show: Value -> string)
    requires data != []
    ensures var commits, key := ProcessCommits(Some(data), show), RowKey(KeyColumn(data[0]));
      && (forall i :: 0 <= i < |commits| ==> FirstIndex(data, key, commits[i].id) < |data|)
      && (forall i, j :: 0 <= i < j < |commits| ==>
            FirstIndex(data, key, commits[i].id) < FirstIndex(data, key, commits[j].id))
      && (forall i :: 0 <= i < |commits| ==>
            commits[i].lines[0] == data[FirstIndex(data, key, commits[i].id)])
  {
    var commits, key := ProcessCommits(Some(data), show), RowKey(KeyColumn(data[0]));
    var gs := GroupBy(data, key);
    GroupByCorrect(data, key);
    CommitsOfGroups(data, show);
    forall i | 0 <= i < |commits|
      ensures commits[i].lines[0] == data[FirstIndex(data, key, commits[i].id)]
    {
      MatchingHead(data, key, gs[i].key);
    }
  }
}
