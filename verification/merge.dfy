/** The merge stage: validate the emotion table, fetch the volatility
    series, broadcast one rounded closing value and one timestamp onto every
    row, add the signed gap, and write the result. The input file, the
    provider's answer, the clock reading and the output file's previous
    contents are all inputs; the run reports what it returns and what the
    output file holds afterwards. */
module MergeData {
  import opened Wrappers
  import opened Rounding
  import opened Tables
  import MarketData
  import BatchEmotion

  const RequiredColumns: set<string> := {"fear_score", "image"}

  const VixColumn := "vix_close"
  const GapColumn := "fear_vix_gap"
  const StampColumn := "analysis_timestamp"

  /** The columns a successful merge assigns. */
  const Added: set<string> := {VixColumn, GapColumn, StampColumn}

  /** Why a merge returned `None`. */
  datatype MergeError =
    | MissingInput                          // the emotion table file does not exist
    | SchemaViolation(missing: set<string>) // required columns absent, named
    | NoMarketData                          // the fetch returned `None`
    | NonNumericFearScore                   // the gap subtraction raised

  /** One merge run: its outcome, and the contents of the output file
      afterwards (`None`: no file). */
  datatype MergeRun = MergeRun(outcome: Result<Table, MergeError>, written: Option<Table>)

  /** The subtraction succeeds on numbers and missing values, and raises on
      text. */
  predicate NumericFearScores(t: Table) {
    forall i :: 0 <= i < |t.rows| && "fear_score" in t.rows[i] ==> !t.rows[i]["fear_score"].Text?
  }

  /** `fear_score - vix_close` for one cell; a missing value stays missing. */
  function GapCell(fear: Cell, vix: real): (g: Cell)
    requires !fear.Text?
    ensures fear.Num? ==> g == Num(fear.x - vix)
    ensures fear.Empty? ==> g.Empty?
  {
    match fear
    case Num(x) => Num(x - vix)
    case Empty => Empty
  }

  function WidenedColumns(columns: seq<string>): seq<string> {
    SetColumn(SetColumn(SetColumn(columns, VixColumn), GapColumn), StampColumn)
  }

  /** One row after the three column assignments: the new cells are
      set, every other cell is kept. */
  function WidenRow(row: Row, vix: real, stamp: string): (r: Row)
    requires "fear_score" in row && !row["fear_score"].Text?
    ensures r.Keys == row.Keys + Added
    ensures r[VixColumn] == Num(vix) && r[StampColumn] == Text(stamp)
    ensures r[GapColumn] == GapCell(row["fear_score"], vix)
    ensures forall k :: k in row && k !in Added ==> r[k] == row[k]
  {
    row[VixColumn := Num(vix)][GapColumn := GapCell(row["fear_score"], vix)][StampColumn := Text(stamp)]
  }

  /** The three column assignments of the success path, on every row. */
  function Broadcast(t: Table, vix: real, stamp: string): (r: Table)
    requires WellFormed(t) && "fear_score" in ColumnSet(t.columns) && NumericFearScores(t)
    ensures |r.rows| == |t.rows|
    ensures forall i :: 0 <= i < |r.rows| ==> r.rows[i] == WidenRow(t.rows[i], vix, stamp)
  {
    Table(WidenedColumns(t.columns),
          seq(|t.rows|, i requires 0 <= i < |t.rows| => WidenRow(t.rows[i], vix, stamp)))
  }

  /** The broadcast keeps the table rectangular. */
  lemma BroadcastWellFormed(t: Table, vix: real, stamp: string)
    requires WellFormed(t) && "fear_score" in ColumnSet(t.columns) && NumericFearScores(t)
    ensures WellFormed(Broadcast(t, vix, stamp))
  {
    var r := Broadcast(t, vix, stamp);
    var added := Added;
    assert ColumnSet(r.columns) == ColumnSet(t.columns) + added;
    forall i | 0 <= i < |r.rows|
      ensures r.rows[i].Keys == ColumnSet(r.columns)
    {
      assert r.rows[i].Keys == t.rows[i].Keys + added;
    }
  }

  /** Every row of the broadcast carries the shared closing value and
      timestamp, its own gap, and its original cells. */
  lemma BroadcastRows(t: Table, vix: real, stamp: string)
    requires WellFormed(t) && "fear_score" in ColumnSet(t.columns) && NumericFearScores(t)
    ensures var r := Broadcast(t, vix, stamp);
            forall i :: 0 <= i < |r.rows| ==>
              && r.rows[i].Keys == t.rows[i].Keys + Added
              && r.rows[i][VixColumn] == Num(vix)
              && r.rows[i][StampColumn] == Text(stamp)
              && (t.rows[i]["fear_score"].Num? ==>
                    r.rows[i][GapColumn] == Num(t.rows[i]["fear_score"].x - vix))
              && forall k :: k in t.rows[i] && k !in Added ==> r.rows[i][k] == t.rows[i][k]
  {
    var r := Broadcast(t, vix, stamp);
    forall i | 0 <= i < |r.rows|
      ensures && r.rows[i].Keys == t.rows[i].Keys + Added
              && r.rows[i][VixColumn] == Num(vix)
              && r.rows[i][StampColumn] == Text(stamp)
              && (t.rows[i]["fear_score"].Num? ==>
                    r.rows[i][GapColumn] == Num(t.rows[i]["fear_score"].x - vix))
              && forall k :: k in t.rows[i] && k !in Added ==> r.rows[i][k] == t.rows[i][k]
    {
      var w := WidenRow(t.rows[i], vix, stamp);
      assert r.rows[i] == w;
    }
  }

  /** `merge_emotion_and_vix_data`. The output file is replaced only on
      success, and then holds exactly the returned table; every failure
      leaves it as it was. */
  function Merge(input: Option<Table>, download: MarketData.Download, stamp: string,
                 prior: Option<Table>): (run: MergeRun)
    requires input.Some? ==> WellFormed(input.value)
    ensures run.written == if run.outcome.Success? then Some(run.outcome.value) else prior
    ensures input.None? ==> run.outcome == Failure(MissingInput)
    ensures input.Some? && !(RequiredColumns <= ColumnSet(input.value.columns)) ==>
              run.outcome == Failure(SchemaViolation(RequiredColumns - ColumnSet(input.value.columns)))
    ensures (input.Some? && RequiredColumns <= ColumnSet(input.value.columns)
             && MarketData.FetchVix(download).None?) ==> run.outcome == Failure(NoMarketData)
    ensures run.outcome.Success? <==>
              && input.Some?
              && RequiredColumns <= ColumnSet(input.value.columns)
              && MarketData.FetchVix(download).Some?
              && NumericFearScores(input.value)
  {
    match input
    case None => MergeRun(Failure(MissingInput), prior)
    case Some(t) =>
      if !(RequiredColumns <= ColumnSet(t.columns)) then
        MergeRun(Failure(SchemaViolation(RequiredColumns - ColumnSet(t.columns))), prior)
      else
        match MarketData.FetchVix(download)
        case None => MergeRun(Failure(NoMarketData), prior)
        case Some(frame) =>
          var vix := Round2(MarketData.LatestVixValue(frame));
          assert "fear_score" in ColumnSet(t.columns);
          if !NumericFearScores(t) then MergeRun(Failure(NonNumericFearScore), prior)
          else
            var merged := Broadcast(t, vix, stamp);
            MergeRun(Success(merged), Some(merged))
  }

  /** The closing value a successful merge broadcasts: the latest fetched
      close, rounded to two places. */
  function BroadcastValue(download: MarketData.Download): real
    requires MarketData.FetchVix(download).Some?
  {
    Round2(MarketData.LatestVixValue(MarketData.FetchVix(download).value))
  }

  /** A successful run is the broadcast, onto the input table, of the
      latest fetched close rounded to two places (see `BroadcastRows` for
      what that does to each row). */
  lemma MergeSuccess(input: Option<Table>, download: MarketData.Download, stamp: string,
                     prior: Option<Table>)
    requires input.Some? ==> WellFormed(input.value)
    requires Merge(input, download, stamp, prior).outcome.Success?
    ensures input.Some? && WellFormed(input.value)
    ensures "fear_score" in ColumnSet(input.value.columns) && NumericFearScores(input.value)
    ensures MarketData.FetchVix(download).Some? && IsCents(BroadcastValue(download))
    ensures Merge(input, download, stamp, prior).outcome.value
            == Broadcast(input.value, BroadcastValue(download), stamp)
  {
    assert input.Some?;
    assert RequiredColumns <= ColumnSet(input.value.columns);
  }

  /** Row `i` of `r` carries the shared closing value `Round2(close)` and
      timestamp, and its gap is row `i` of `t`'s fear score minus that
      value. */
  ghost predicate CarriesRoundedClose(t: Table, r: Table, close: real, stamp: string) {
    forall i :: 0 <= i < |r.rows| && i < |t.rows| ==>
      && Added <= r.rows[i].Keys
      && r.rows[i][VixColumn] == Num(Round2(close))
      && r.rows[i][StampColumn] == Text(stamp)
      && ("fear_score" in t.rows[i] && t.rows[i]["fear_score"].Num? ==>
            r.rows[i][GapColumn] == Num(t.rows[i]["fear_score"].x - Round2(close)))
  }

  /** `BroadcastRows` with the broadcast value written as a rounded close. */
  lemma BroadcastFromQuote(t: Table, close: real, stamp: string)
    requires WellFormed(t) && "fear_score" in ColumnSet(t.columns) && NumericFearScores(t)
    ensures |Broadcast(t, Round2(close), stamp).rows| == |t.rows|
    ensures CarriesRoundedClose(t, Broadcast(t, Round2(close), stamp), close, stamp)
  {
    BroadcastRows(t, Round2(close), stamp);
  }

  /** End to end: a successful run has one row per input row, and every
      row carries the close of a provider quote that no other quote
      post-dates, rounded to two places, and its fear score minus that
      rounded close. */
  lemma MergeVixFromProvider(input: Option<Table>, download: MarketData.Download, stamp: string,
                             prior: Option<Table>)
    requires input.Some? ==> WellFormed(input.value)
    requires Merge(input, download, stamp, prior).outcome.Success?
    ensures input.Some? && download.Frame?
    ensures var r := Merge(input, download, stamp, prior).outcome.value;
            && |r.rows| == |input.value.rows|
            && exists q :: q in download.quotes
                 && (forall q' :: q' in download.quotes ==> q'.date <= q.date)
                 && CarriesRoundedClose(input.value, r, q.close, stamp)
  {
    MergeSuccess(input, download, stamp, prior);
    var t, vix := input.value, BroadcastValue(download);
    var r := Merge(input, download, stamp, prior).outcome.value;
    MarketData.LatestAfterFetch(download);
    var q :| q in download.quotes
             && q.close == MarketData.LatestVixValue(MarketData.FetchVix(download).value)
             && forall q' :: q' in download.quotes ==> q'.date <= q.date;
    assert r == Broadcast(t, Round2(q.close), stamp);
    BroadcastFromQuote(t, q.close, stamp);
  }

  /** Once the schema holds and the provider has data, the run fails on
      the subtraction exactly when some row's fear score is text. */
  lemma MergeRaisesOnTextFearScore(t: Table, d: MarketData.Download, stamp: string,
                                   prior: Option<Table>)
    requires WellFormed(t) && RequiredColumns <= ColumnSet(t.columns)
    requires d.Frame? && |d.quotes| > 0
    ensures Merge(Some(t), d, stamp, prior).outcome == Failure(NonNumericFearScore) <==>
              exists i :: 0 <= i < |t.rows| && "fear_score" in t.rows[i] && t.rows[i]["fear_score"].Text?
    ensures Merge(Some(t), d, stamp, prior).outcome.Failure? ==>
              Merge(Some(t), d, stamp, prior).written == prior
  {
  }

  /** The broadcast identity: any two rows of one run share `vix_close`
      and `analysis_timestamp`. */
  lemma MergeBroadcastIdentity(input: Option<Table>, download: MarketData.Download, stamp: string,
                               prior: Option<Table>, i: nat, j: nat)
    requires input.Some? ==> WellFormed(input.value)
    requires Merge(input, download, stamp, prior).outcome.Success?
    requires i < |Merge(input, download, stamp, prior).outcome.value.rows|
    requires j < |Merge(input, download, stamp, prior).outcome.value.rows|
    ensures var r := Merge(input, download, stamp, prior).outcome.value;
            && Added <= r.rows[i].Keys && Added <= r.rows[j].Keys
            && r.rows[i][VixColumn] == r.rows[j][VixColumn]
            && r.rows[i][StampColumn] == r.rows[j][StampColumn]
  {
    MergeSuccess(input, download, stamp, prior);
    var t, vix := input.value, BroadcastValue(download);
    var r := Broadcast(t, vix, stamp);
    assert r.rows[i] == WidenRow(t.rows[i], vix, stamp);
    assert r.rows[j] == WidenRow(t.rows[j], vix, stamp);
  }

  /** The column list after the three assignments: the old columns stay in
      place, the new names are present, and when none of them was there
      before they are appended in assignment order. */
  lemma WidenedColumnsFacts(columns: seq<string>)
    ensures var w := WidenedColumns(columns);
            && |columns| <= |w| && w[..|columns|] == columns
            && ColumnSet(w) == ColumnSet(columns) + Added
            && (Distinct(columns) ==> Distinct(w))
            && (ColumnSet(columns) !! Added ==> w == columns + [VixColumn, GapColumn, StampColumn])
  {
    var c1 := SetColumn(columns, VixColumn);
    var c2 := SetColumn(c1, GapColumn);
    var w := SetColumn(c2, StampColumn);
    assert c2[..|columns|] == c1[..|c1|][..|columns|];
    assert w[..|columns|] == c2[..|c2|][..|columns|];
  }

  /** On success the result is well formed, keeps the input's columns in
      place and, when the input has none of them yet, appends exactly
      `vix_close`, `fear_vix_gap` and `analysis_timestamp`, in that order. */
  lemma MergeSchema(input: Option<Table>, download: MarketData.Download, stamp: string,
                    prior: Option<Table>)
    requires input.Some? ==> WellFormed(input.value)
    requires Merge(input, download, stamp, prior).outcome.Success?
    ensures var t := input.value;
            var r := Merge(input, download, stamp, prior).outcome.value;
            && WellFormed(r)
            && |t.columns| <= |r.columns| && r.columns[..|t.columns|] == t.columns
            && ColumnSet(r.columns) == ColumnSet(t.columns) + Added
            && (ColumnSet(t.columns) !! Added ==>
                  r.columns == t.columns + [VixColumn, GapColumn, StampColumn])
  {
    MergeSuccess(input, download, stamp, prior);
    BroadcastWellFormed(input.value, BroadcastValue(download), stamp);
    WidenedColumnsFacts(input.value.columns);
  }

  /** Re-running a merge on the same input gives the same row count and
      the same columns, and rows that differ at most in the three added
      cells, whatever the provider and the clock say. */
  lemma MergeRerunStable(input: Option<Table>, d1: MarketData.Download, s1: string, p1: Option<Table>,
                         d2: MarketData.Download, s2: string, p2: Option<Table>)
    requires input.Some? ==> WellFormed(input.value)
    requires Merge(input, d1, s1, p1).outcome.Success?
    requires Merge(input, d2, s2, p2).outcome.Success?
    ensures var r1 := Merge(input, d1, s1, p1).outcome.value;
            var r2 := Merge(input, d2, s2, p2).outcome.value;
            && r1.columns == r2.columns
            && |r1.rows| == |r2.rows|
            && forall i :: 0 <= i < |r1.rows| ==>
                 && r1.rows[i].Keys == r2.rows[i].Keys
                 && forall k :: k in r1.rows[i] && k !in Added ==> r1.rows[i][k] == r2.rows[i][k]
  {
    MergeSuccess(input, d1, s1, p1);
    MergeSuccess(input, d2, s2, p2);
    BroadcastRows(input.value, BroadcastValue(d1), s1);
    BroadcastRows(input.value, BroadcastValue(d2), s2);
  }

  /** The worked example: fear scores 42.10 and 10.00 against a latest
      close of 18.50 give gaps 23.60 and -8.50, with the same `vix_close`
      and timestamp on both rows. */
  lemma MergeExample(prior: Option<Table>)
    ensures var row := (name: string, fear: real) =>
              map["image" := Text(name), "fear_score" := Num(fear)];
            var t := Table(["image", "fear_score"], [row("a.jpg", 42.10), row("b.jpg", 10.00)]);
            var d := MarketData.Frame([MarketData.Quote(1, 0.0, 0.0, 0.0, 18.50, 0)]);
            var run := Merge(Some(t), d, "2025-01-02 03:04:05 UTC", prior);
            && run.outcome.Success?
            && run.written == Some(run.outcome.value)
            && run.outcome.value.rows[0][GapColumn] == Num(23.60)
            && run.outcome.value.rows[1][GapColumn] == Num(-8.50)
            && run.outcome.value.rows[0][VixColumn] == run.outcome.value.rows[1][VixColumn] == Num(18.50)
            && run.outcome.value.rows[0][StampColumn] == run.outcome.value.rows[1][StampColumn]
  {
    var d := MarketData.Frame([MarketData.Quote(1, 0.0, 0.0, 0.0, 18.50, 0)]);
    var f := MarketData.FetchVix(d).value;
    assert f.rows == [MarketData.VixRow(1, 18.50)] by {
      assert multiset(f.rows) == multiset{MarketData.VixRow(1, 18.50)};
    }
    assert RoundHalfEven(1850.0) == 1850;
    assert Round2(18.50) == 18.50;
  }

  // ---------------------------------------------------------------------
  // Across the stages
  // ---------------------------------------------------------------------

  /** Every record the batch stage produces has the two columns the merge
      requires, and a numeric fear score, so a table of such records never
      fails the merge's schema or subtraction. This holds even when the
      classifier's labels collide with the fixed keys. */
  lemma BatchRecordsPassMergeChecks<Img>(listing: seq<string>, decode: string -> Option<Img>,
                                         classify: Img -> Result<seq<BatchEmotion.Analysis>, string>,
                                         row: Row)
    requires row in BatchEmotion.Batch(listing, decode, classify)
    ensures RequiredColumns <= row.Keys
    ensures row["fear_score"].Num?
  {
    var step := BatchEmotion.Scorer(decode, classify);
    FilterMapSource(listing, step, row);
    var file :| file in listing && step(file) == Some(row);
    var a := classify(decode(file).value).value[0];
    assert BatchEmotion.MakeRecord(file, a) == Some(row);
  }

  /** A batch run that scored nothing leaves a table without columns, and
      merging it fails the schema check, naming both required columns; the
      output file keeps its previous contents. */
  lemma MergeOfEmptyBatch(download: MarketData.Download, stamp: string, prior: Option<Table>)
    ensures var run := Merge(Some(Table([], [])), download, stamp, prior);
            run.outcome == Failure(SchemaViolation({"fear_score", "image"})) && run.written == prior
  {
    var t := Table([], []);
    assert ColumnSet(t.columns) == {};
    assert RequiredColumns - ColumnSet(t.columns) == {"fear_score", "image"};
  }
}
