/**
 * A worked example: three rows, two of commit "a1" at 08:30 and one of
 * commit "b2" at 20:00.
 */
module Scenario {
  import opened Wrappers
  import opened Rows
  import opened Groups
  import opened Commits
  import opened Stats

  const A1: DatedRow := map["commit" := Text("a1"), "datetime" := Time(Valid(Instant(0, 8, 30)))]
  const B2: DatedRow := map["commit" := Text("b2"), "datetime" := Time(Valid(Instant(1, 20, 0)))]

  function ExampleRows(): seq<DatedRow>
  {
    [A1, A1, B2]
  }

  lemma ExampleGroups()
    ensures GroupBy(ExampleRows(), RowKey("commit")) ==
              [Group(Some(Text("a1")), [A1, A1]), Group(Some(Text("b2")), [B2])]
  {
    var key := RowKey("commit");
    var data := ExampleRows();
    assert key(A1) == Some(Text("a1")) && key(B2) == Some(Text("b2"));
    assert data[..2][..1] == [A1] && data[..2] == [A1, A1];
    var g1 := [Group(Some(Text("a1")), [A1])];
    assert GroupBy([A1], key) == g1;
    var g2 := [Group(Some(Text("a1")), [A1, A1])];
    assert IndexOfKey(g1, Some(Text("a1"))) == 0;
    assert Insert(g1, Some(Text("a1")), A1) == g2 by {
      assert [A1] + [A1] == [A1, A1];
      assert g1[0 := Group(Some(Text("a1")), [A1, A1])] == g2;
    }
    assert GroupBy([A1, A1], key) == g2 by {
      assert [A1, A1][..1] == [A1];
    }
    assert IndexOfKey(g2, Some(Text("b2"))) == 1;
  }

  lemma ExampleCommits(show: Value -> string)
    ensures var commits := ProcessCommits(Some(ExampleRows()), show);
      && |commits| == 2
      && commits[0].id == Some(Text("a1")) && commits[0].totalLines == 2 && commits[0].hourFrac == Frac(8.5)
      && commits[0].url == "https://github.com/jackkalsched/portfolio/commit/a1"
      && commits[1].id == Some(Text("b2")) && commits[1].totalLines == 1 && commits[1].hourFrac == Frac(20.0)
  {
    assert KeyColumn(ExampleRows()[0]) == "commit";
    ExampleGroups();
    CommitsOfGroups(ExampleRows(), show);
  }

  lemma ExamplePeriods()
    ensures MostProductive(ExampleRows()) == Some(Morning)
  {
    var data := ExampleRows();
    assert RowPeriod(A1) == Morning && RowPeriod(B2) == Evening;
    var g1 := [Group(Morning, [A1])];
    assert GroupBy([A1], RowPeriod) == g1;
    var g2 := [Group(Morning, [A1, A1])];
    assert Insert(g1, Morning, A1) == g2 by {
      assert [A1] + [A1] == [A1, A1];
      assert g1[0 := Group(Morning, [A1, A1])] == g2;
    }
    assert GroupBy([A1, A1], RowPeriod) == g2 by {
      assert [A1, A1][..1] == [A1];
    }
    assert data[..2] == [A1, A1];
    assert GroupBy(data, RowPeriod) == [Group(Morning, [A1, A1]), Group(Evening, [B2])];
    assert WorkByPeriod(data) == [(Morning, 2), (Evening, 1)];
  }

  /**
   * A tie: one Evening row, then one Morning row. Each period counts one row,
   * and the period that occurs first in the rows is reported.
   */
  lemma ExampleTie()
    ensures MostProductive([B2, A1]) == Some(Evening)
  {
    var data: seq<DatedRow> := [B2, A1];
    assert RowPeriod(A1) == Morning && RowPeriod(B2) == Evening;
    assert data[..1] == [B2];
    assert Matching(data[..1], RowPeriod, Evening) == [B2];
    assert Matching(data[..1], RowPeriod, Morning) == [];
    assert Count(data, RowPeriod, Evening) == 1 == Count(data, RowPeriod, Morning);
    assert FirstIndex(data, RowPeriod, Evening) == 0;
    assert data[1..] == [A1];
    assert FirstIndex(data, RowPeriod, Morning) == 1;
    MostProductiveIsFirstMaximal(data, Morning);
    MostProductiveIsFirstMaximal(data, Evening);
    MostProductiveIsFirstMaximal(data, Afternoon);
    MostProductiveIsFirstMaximal(data, Night);
  }
}
