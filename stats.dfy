/**
 * The statistics `renderCommitInfo` shows (meta/main.js, lines 162-180),
 * without writing them into the page: commit and row totals, the number of
 * distinct files, and the busiest time of day.
 */
module Stats {
  import opened Wrappers
  import opened Rows
  import opened Groups
  import opened Commits

  datatype Period = Morning | Afternoon | Evening | Night

  function Label(p: Period): string
  {
    match p
    case Morning => "Morning"
    case Afternoon => "Afternoon"
    case Evening => "Evening"
    case Night => "Night"
  }

  /**
   * The bucketing callback on `datetime.getHours()`. An Invalid Date gives NaN,
   * every comparison with NaN is false, and so it lands in Night.
   */
  function PeriodOf(d: Date): (p: Period)
    ensures p == Morning <==> d.Valid? && 5 <= d.at.hour < 12
    ensures p == Afternoon <==> d.Valid? && 12 <= d.at.hour < 17
    ensures p == Evening <==> d.Valid? && 17 <= d.at.hour < 21
    ensures p == Night <==> d.Invalid? || d.at.hour < 5 || 21 <= d.at.hour
  {
    match d
    case Invalid => Night
    case Valid(t) =>
      var h := t.hour;
      if h >= 5 && h < 12 then Morning
      else if h >= 12 && h < 17 then Afternoon
      else if h >= 17 && h < 21 then Evening
      else Night
  }

  /**
   * The bucket of a valid time agrees with its hour fraction, the value the
   * scatter plot uses for the time of day.
   */
  lemma PeriodMatchesHourFraction(d: Date)
    requires d.Valid?
    ensures var h := HourFraction(Some(Time(d))).value;
      && (PeriodOf(d) == Morning <==> 5.0 <= h < 12.0)
      && (PeriodOf(d) == Afternoon <==> 12.0 <= h < 17.0)
      && (PeriodOf(d) == Evening <==> 17.0 <= h < 21.0)
      && (PeriodOf(d) == Night <==> h < 5.0 || 21.0 <= h)
  {
  }

  /** The period of a row's `datetime`. */
  function RowPeriod(r: DatedRow): Period
  {
    PeriodOf(r["datetime"].d)
  }

  /** The "Number of Files" metric: a count, or 'N/A'. */
  datatype FileCount = Files(n: nat) | NotApplicable

  /**
   * `'file' in data[0] ? d3.group(data, d => d.file).size : 'N/A'`. The source
   * reads `data[0]`, which throws on an empty dataset.
   */
  function NumFiles(data: seq<Row>): (r: FileCount)
    requires data != []
    ensures r.NotApplicable? <==> "file" !in data[0]
    ensures r.Files? ==> r.n == |KeySet(data, RowKey("file"))|
    ensures r.Files? ==> 1 <= r.n <= |data|
  {
    if "file" in data[0] then
      GroupByCountsKeys(data, RowKey("file"));
      Files(|GroupBy(data, RowKey("file"))|)
    else NotApplicable
  }

  /** `d3.rollups(data, v => v.length, period)`: each period with its row count. */
  function WorkByPeriod(data: seq<DatedRow>): seq<(Period, nat)>
  {
    Rollup(data, RowPeriod)
  }

  /** `d3.greatest(workByPeriod, d => d[1])`, as the period it names; None for undefined. */
  function MostProductive(data: seq<DatedRow>): (r: Option<Period>)
    ensures r.None? <==> data == []
  {
    var tallies := WorkByPeriod(data);
    match GreatestAt(tallies, (t: (Period, nat)) => t.1)
    case None => None
    case Some(i) => Some(tallies[i].0)
  }

  /**
   * The reported period has the largest row count; a period with the same
   * count loses to it exactly when it first occurs later in the rows.
   */
  lemma MostProductiveIsFirstMaximal(data: seq<DatedRow>, q: Period)
    requires data != []
    ensures var p := MostProductive(data).value;
      && Count(data, RowPeriod, p) > 0
      && Count(data, RowPeriod, q) <= Count(data, RowPeriod, p)
      && (q != p && Count(data, RowPeriod, q) == Count(data, RowPeriod, p) ==>
            FirstIndex(data, RowPeriod, p) < FirstIndex(data, RowPeriod, q))
  {
    var gs := GroupBy(data, RowPeriod);
    var tallies := WorkByPeriod(data);
    GroupByCorrect(data, RowPeriod);
    var m := GreatestAt(tallies, (t: (Period, nat)) => t.1).value;
    var p := tallies[m].0;
    assert p == MostProductive(data).value;
    CountPositive(data, RowPeriod, q);
    if Count(data, RowPeriod, q) > 0 {
      var j := IndexOfKey(gs, RowPeriod(data[FirstIndex(data, RowPeriod, q)]));
      assert tallies[j].0 == q;
      if q != p {
        assert j != m;
      }
    }
  }

  /** The "Most Productive Time of Day" text. */
  function ProductiveLabel(data: seq<DatedRow>): (s: string)
    ensures s == "N/A" <==> data == []
  {
    match MostProductive(data)
    case Some(p) => Label(p)
    case None => "N/A"
  }

  datatype CommitInfo = CommitInfo(totalCommits: nat, totalLoc: nat, numFiles: FileCount, mostProductive: string)

  /** The metrics of `renderCommitInfo(data, commits)`, in display order. */
  function CommitStats(data: seq<DatedRow>, commits: seq<Commit>): (info: CommitInfo)
    requires data != []
    ensures info.totalCommits == |commits| && info.totalLoc == |data|
    ensures info.numFiles.NotApplicable? <==> "file" !in data[0]
    ensures info.numFiles.Files? ==> info.numFiles.n == |KeySet<Row, Option<Value>>(data, RowKey("file"))|
    ensures MostProductive(data).Some? && info.mostProductive == Label(MostProductive(data).value)
    ensures info.mostProductive in {"Morning", "Afternoon", "Evening", "Night"}
  {
    CommitInfo(|commits|, |data|, NumFiles(data), ProductiveLabel(data))
  }

  /**
   * The whole load: rows normalised, grouped into commits and summarised.
   * There are at least one and at most as many commits as rows, and the
   * commits' line totals add up to the "Total LOC" figure.
   */
  lemma PipelineTotals(host: Host, raws: seq<RawRow>, show: Value -> string)
    requires raws != []
    ensures var data := LoadRows(host, raws);
      var commits := ProcessCommits(Some(data), show);
      var info := CommitStats(data, commits);
      && info.totalLoc == |raws|
      && SumLines(commits) == info.totalLoc
      && 0 < info.totalCommits <= info.totalLoc
  {
    var data := LoadRows(host, raws);
    CommitLinesSumToRows(Some(data), show);
  }
}
