/** The volatility-index fetcher: the provider's daily frame is reduced to
    two columns, `date` and `vix_close`, and sorted by date; a provider
    failure or an empty frame becomes `None`. The provider call itself is an
    outside capability, so its outcome is an input here. */
module MarketData {
  import opened Wrappers

  /** Calendar dates as day numbers: only their order matters. */
  type Date = int

  /** One row of the provider's daily frame. */
  datatype Quote = Quote(date: Date, open: real, high: real, low: real, close: real, volume: int)

  /** What the provider call produced: it raised (in the download or in
      reshaping its frame), or it returned a frame, possibly empty. */
  datatype Download = Raised(reason: string) | Frame(quotes: seq<Quote>)

  datatype VixRow = VixRow(date: Date, vixClose: real)

  datatype VixFrame = VixFrame(columns: seq<string>, rows: seq<VixRow>)

  const VixColumns: seq<string> := ["date", "vix_close"]

  /** Selects `Date` and `Close` from every quote, renamed. */
  function Normalise(quotes: seq<Quote>): (rows: seq<VixRow>)
    ensures |rows| == |quotes|
    ensures forall i :: 0 <= i < |rows| ==>
              rows[i].date == quotes[i].date && rows[i].vixClose == quotes[i].close
  {
    seq(|quotes|, i requires 0 <= i < |quotes| => VixRow(quotes[i].date, quotes[i].close))
  }

  predicate SortedByDate(rows: seq<VixRow>) {
    forall i, j :: 0 <= i < j < |rows| ==> rows[i].date <= rows[j].date
  }

  predicate DistinctDates(rows: seq<VixRow>) {
    forall i, j :: 0 <= i < j < |rows| ==> rows[i].date != rows[j].date
  }

  // ---------------------------------------------------------------------
  // Sorting by date
  // ---------------------------------------------------------------------

  function Insert(r: VixRow, rows: seq<VixRow>): (out: seq<VixRow>)
    requires SortedByDate(rows)
    ensures SortedByDate(out)
    ensures multiset(out) == multiset(rows) + multiset{r}
    ensures forall x :: x in out ==> x == r || x in rows
  {
    if |rows| == 0 then [r]
    else if r.date <= rows[0].date then [r] + rows
    else
      var tail := Insert(r, rows[1..]);
      InsertStep(rows, r, tail);
      [rows[0]] + tail
  }

  /** The step of `Insert` that keeps the head: putting the smallest row in
      front of the sorted insertion into the rest is sorted, and the
      rows are those of the input plus `r`. */
  lemma InsertStep(rows: seq<VixRow>, r: VixRow, tail: seq<VixRow>)
    requires |rows| > 0 && SortedByDate(rows) && rows[0].date < r.date
    requires SortedByDate(tail)
    requires multiset(tail) == multiset(rows[1..]) + multiset{r}
    requires forall y :: y in tail ==> y == r || y in rows[1..]
    ensures SortedByDate([rows[0]] + tail)
    ensures multiset([rows[0]] + tail) == multiset(rows) + multiset{r}
    ensures forall y :: y in [rows[0]] + tail ==> y == r || y in rows
  {
    forall y | y in tail ensures rows[0].date <= y.date {
      if y != r {
        var k :| 0 <= k < |rows[1..]| && rows[1..][k] == y;
        assert rows[k + 1] == y;
      }
    }
    ConsSorted(rows[0], tail);
    assert rows == [rows[0]] + rows[1..];
  }

  lemma ConsSorted(x: VixRow, t: seq<VixRow>)
    requires SortedByDate(t)
    requires forall y :: y in t ==> x.date <= y.date
    ensures SortedByDate([x] + t)
  {
    var s := [x] + t;
    forall i, j | 0 <= i < j < |s| ensures s[i].date <= s[j].date {
      if i == 0 {
        assert s[j] == t[j - 1];
      } else {
        assert s[i] == t[i - 1] && s[j] == t[j - 1];
      }
    }
  }

  /** `sort_values("date")`: a sorted rearrangement of the rows. */
  function SortByDate(rows: seq<VixRow>): (out: seq<VixRow>)
    ensures SortedByDate(out)
    ensures multiset(out) == multiset(rows)
  {
    if |rows| == 0 then []
    else
      assert rows == [rows[0]] + rows[1..];
      Insert(rows[0], SortByDate(rows[1..]))
  }

  /** A multiset with no repeated date has every element at most once. */
  lemma {:induction false} DistinctCountsOne(s: seq<VixRow>, x: VixRow)
    requires DistinctDates(s)
    ensures multiset(s)[x] <= 1
  {
    if |s| > 0 {
      assert s == [s[0]] + s[1..];
      DistinctCountsOne(s[1..], x);
      if x == s[0] {
        assert x !in s[1..];
      }
    }
  }

  /** Rearranging rows keeps their dates distinct. */
  lemma DistinctDatesPermutation(s: seq<VixRow>, t: seq<VixRow>)
    requires DistinctDates(s)
    requires multiset(s) == multiset(t)
    ensures DistinctDates(t)
  {
    forall i, j | 0 <= i < j < |t|
      ensures t[i].date != t[j].date
    {
      if t[i] == t[j] {
        assert t == t[..j] + t[j..];
        assert t[i] in t[..j] && t[j] in t[j..];
        assert multiset(t)[t[i]] >= 2;
        DistinctCountsOne(s, t[i]);
      } else {
        assert t[i] in multiset(s) && t[j] in multiset(s);
        var p :| 0 <= p < |s| && s[p] == t[i];
        var q :| 0 <= q < |s| && s[q] == t[j];
        assert p != q;
      }
    }
  }

  /** Two sorted rearrangements of the same non-empty rows start with the
      same row when the dates are distinct. */
  lemma SortedHeadsAgree(a: seq<VixRow>, b: seq<VixRow>)
    requires SortedByDate(a) && SortedByDate(b)
    requires multiset(a) == multiset(b)
    requires DistinctDates(a)
    requires |a| > 0
    ensures |b| > 0 && a[0] == b[0]
  {
    assert a[0] in multiset(b);
    var k :| 0 <= k < |b| && b[k] == a[0];
    assert b[0] in multiset(a);
    var m :| 0 <= m < |a| && a[m] == b[0];
    assert a[0].date <= a[m].date == b[0].date <= b[k].date == a[0].date;
    assert m == 0;
  }

  /** Dropping equal heads keeps two sorted rearrangements of the same
      rows sorted rearrangements of each other. */
  lemma TailsAgree(a: seq<VixRow>, b: seq<VixRow>)
    requires SortedByDate(a) && SortedByDate(b)
    requires multiset(a) == multiset(b)
    requires DistinctDates(a)
    requires |a| > 0 && |b| > 0 && a[0] == b[0]
    ensures SortedByDate(a[1..]) && SortedByDate(b[1..])
    ensures multiset(a[1..]) == multiset(b[1..])
    ensures DistinctDates(a[1..])
  {
    assert a == [a[0]] + a[1..] && b == [b[0]] + b[1..];
    assert multiset(a) == multiset{a[0]} + multiset(a[1..]);
    assert multiset(b) == multiset{b[0]} + multiset(b[1..]);
    assert multiset(a[1..]) == multiset(a) - multiset{a[0]};
    assert multiset(b[1..]) == multiset(b) - multiset{b[0]};
  }

  /** Two sorted rearrangements of the same rows are equal when the dates
      are distinct: sorting leaves no choice. */
  lemma {:induction false} SortedPermutationUnique(a: seq<VixRow>, b: seq<VixRow>)
    requires SortedByDate(a) && SortedByDate(b)
    requires multiset(a) == multiset(b)
    requires DistinctDates(a)
    ensures a == b
  {
    if |a| == 0 {
      assert |multiset(b)| == 0;
    } else {
      SortedHeadsAgree(a, b);
      TailsAgree(a, b);
      SortedPermutationUnique(a[1..], b[1..]);
      assert a == [a[0]] + a[1..] && b == [b[0]] + b[1..];
    }
  }

  // ---------------------------------------------------------------------
  // fetch_vix_data and latest_vix_value
  // ---------------------------------------------------------------------

  /** `fetch_vix_data`: `None` when the provider raised or returned nothing;
      otherwise the two-column frame holding every provider row, sorted
      by date. */
  function FetchVix(d: Download): (r: Option<VixFrame>)
    ensures r.None? <==> d.Raised? || |d.quotes| == 0
    ensures r.Some? ==> r.value.columns == VixColumns
    ensures r.Some? ==> SortedByDate(r.value.rows)
    ensures r.Some? ==> multiset(r.value.rows) == multiset(Normalise(d.quotes))
    ensures r.Some? ==> |r.value.rows| == |d.quotes| > 0
  {
    match d
    case Raised(_) => None
    case Frame(quotes) =>
      if |quotes| == 0 then None
      else
        var rows := SortByDate(Normalise(quotes));
        assert |rows| == |multiset(rows)| == |Normalise(quotes)|;
        Some(VixFrame(VixColumns, rows))
  }

  /** When the provider's dates are distinct, any sorted rearrangement of
      its rows (whatever sorting algorithm produced it) is the frame
      `FetchVix` returns. */
  lemma FetchVixRowsDetermined(d: Download, rows: seq<VixRow>)
    requires d.Frame? && |d.quotes| > 0
    requires DistinctDates(Normalise(d.quotes))
    requires SortedByDate(rows) && multiset(rows) == multiset(Normalise(d.quotes))
    ensures FetchVix(d).value.rows == rows
  {
    var mine := FetchVix(d).value.rows;
    DistinctDatesPermutation(Normalise(d.quotes), mine);
    SortedPermutationUnique(mine, rows);
  }

  /** `v` is the close of a row that carries the latest date. */
  ghost predicate IsLatestClose(rows: seq<VixRow>, v: real) {
    exists i :: 0 <= i < |rows| && rows[i].vixClose == v &&
      forall j :: 0 <= j < |rows| ==> rows[j].date <= rows[i].date
  }

  /** `latest_vix_value`: the close of the final row, which on a frame
      sorted by date is a close of the latest date. An empty frame has no
      final row: the program fails there. */
  function LatestVixValue(f: VixFrame): (v: real)
    requires |f.rows| > 0
    ensures exists i :: 0 <= i < |f.rows| && f.rows[i].vixClose == v
    ensures SortedByDate(f.rows) ==> IsLatestClose(f.rows, v)
  {
    var last := |f.rows| - 1;
    assert SortedByDate(f.rows) ==> forall j :: 0 <= j < |f.rows| ==> f.rows[j].date <= f.rows[last].date;
    f.rows[last].vixClose
  }

  /** After a successful fetch, the latest value is the close of a provider
      quote whose date no other quote exceeds. */
  lemma LatestAfterFetch(d: Download)
    requires d.Frame? && |d.quotes| > 0
    ensures exists q :: q in d.quotes && q.close == LatestVixValue(FetchVix(d).value) &&
              forall q' :: q' in d.quotes ==> q'.date <= q.date
  {
    var quotes := d.quotes;
    var norm := Normalise(quotes);
    var rows := FetchVix(d).value.rows;
    var last := rows[|rows| - 1];
    assert LatestVixValue(FetchVix(d).value) == last.vixClose;
    assert last in multiset(norm);
    var k :| 0 <= k < |norm| && norm[k] == last;
    var q := quotes[k];
    forall q' | q' in quotes
      ensures q'.date <= q.date
    {
      var k' :| 0 <= k' < |quotes| && quotes[k'] == q';
      NoLaterRow(norm, rows, k');
    }
    assert q in quotes && q.close == last.vixClose;
  }

  /** Every row of the input is dated no later than the final row of its
      sorted rearrangement. */
  lemma NoLaterRow(norm: seq<VixRow>, rows: seq<VixRow>, k: nat)
    requires k < |norm|
    requires SortedByDate(rows) && multiset(rows) == multiset(norm)
    ensures |rows| > 0 && norm[k].date <= rows[|rows| - 1].date
  {
    assert norm[k] in multiset(norm);
    var p :| 0 <= p < |rows| && rows[p] == norm[k];
  }

  /** With distinct dates the answer is unique: the close of THE latest
      quote, whatever order the provider delivered the quotes in. */
  lemma LatestIsCloseOfLatestQuote(d: Download, q: Quote)
    requires d.Frame? && q in d.quotes
    requires DistinctDates(Normalise(d.quotes))
    requires forall q' :: q' in d.quotes ==> q'.date <= q.date
    ensures LatestVixValue(FetchVix(d).value) == q.close
  {
    LatestAfterFetch(d);
    var norm := Normalise(d.quotes);
    var q0 :| q0 in d.quotes && q0.close == LatestVixValue(FetchVix(d).value) &&
              forall q' :: q' in d.quotes ==> q'.date <= q0.date;
    var i :| 0 <= i < |d.quotes| && d.quotes[i] == q;
    var i0 :| 0 <= i0 < |d.quotes| && d.quotes[i0] == q0;
    assert q.date == q0.date;
    assert norm[i].date == norm[i0].date;
    assert i == i0;
  }

  /** Three quotes delivered out of order, dated 2, 3, 1. */
  function ExampleDownload(): Download {
    Frame([Quote(2, 0.0, 0.0, 0.0, 30.0, 0),
           Quote(3, 0.0, 0.0, 0.0, 15.0, 0),
           Quote(1, 0.0, 0.0, 0.0, 20.0, 0)])
  }

  lemma ExampleSorted()
    ensures FetchVix(ExampleDownload()).Some?
    ensures FetchVix(ExampleDownload()).value.rows == [VixRow(1, 20.0), VixRow(2, 30.0), VixRow(3, 15.0)]
  {
    var d := ExampleDownload();
    var norm := Normalise(d.quotes);
    assert norm == [VixRow(2, 30.0), VixRow(3, 15.0), VixRow(1, 20.0)];
    var expected := [norm[2], norm[0], norm[1]];
    assert multiset(expected) == multiset(norm);
    FetchVixRowsDetermined(d, expected);
  }

  /** On the example, the latest value is the close dated 3: neither the
      largest close nor the first one after sorting. */
  lemma LatestIsNeitherMaxNorFirst()
    ensures var f := FetchVix(ExampleDownload()).value;
            LatestVixValue(f) == 15.0 && f.rows[0].vixClose == 20.0
            && exists i :: 0 <= i < |f.rows| && f.rows[i].vixClose == 30.0
  {
    ExampleSorted();
    var f := FetchVix(ExampleDownload()).value;
    assert f.rows[1].vixClose == 30.0;
  }
}
