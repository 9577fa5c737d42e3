/** The positional slices the pages read from the log: the home page's last
    seven entries, the chart's last thirty, and the reports page's two trend
    windows (the last seven entries and the seven before them). */
module Views {
  import opened Journal
  import opened JsArray

  const HomeSize: nat := 7
  const ChartSize: nat := 30
  const TrendSize: nat := 7

  /** The home page's entries: `entries.slice(-7)`. */
  function HomeView(log: seq<Entry>): (view: seq<Entry>)
    ensures |view| == Min(HomeSize, |log|)
    ensures log == log[..|log| - |view|] + view
  {
    SliceFromNegativeIsLast(log, HomeSize);
    SliceFrom(log, -(HomeSize as int))
  }

  /** The chart endpoint's entries: `readData().slice(-30)`. */
  function ChartData(log: seq<Entry>): (data: seq<Entry>)
    ensures |data| == Min(ChartSize, |log|)
    ensures log == log[..|log| - |data|] + data
  {
    SliceFromNegativeIsLast(log, ChartSize);
    SliceFrom(log, -(ChartSize as int))
  }

  /** The reports page's recent window: `entries.slice(-7)`. */
  function Recent(log: seq<Entry>): (recent: seq<Entry>)
    ensures |recent| == Min(TrendSize, |log|)
    ensures log == log[..|log| - |recent|] + recent
  {
    SliceFromNegativeIsLast(log, TrendSize);
    SliceFrom(log, -(TrendSize as int))
  }

  /** The reports page's comparison window: `entries.slice(-14, -7)`. */
  function Previous(log: seq<Entry>): (previous: seq<Entry>)
    ensures |previous| == Max(0, Min(TrendSize, |log| - TrendSize))
  {
    SliceBetweenNegatives(log, 2 * TrendSize, TrendSize);
    Slice(log, -(2 * TrendSize as int), -(TrendSize as int))
  }

  /** The two trend windows are adjacent runs at the end of the log: the
      comparison window ends exactly where the recent window begins, so they
      never overlap, and together they are a suffix of the log. A log of at
      most seven entries has an empty comparison window. */
  lemma TrendWindows(log: seq<Entry>)
    ensures var n, recent, previous := |log|, Recent(log), Previous(log);
      && log == log[..n - |recent| - |previous|] + previous + recent
      && previous == log[n - |recent| - |previous|..n - |recent|]
      && recent == log[n - |recent|..]
      && (n <= TrendSize ==> previous == [])
      && (n >= 2 * TrendSize ==> |previous| == |recent| == TrendSize)
  {
  }

  /** With ten entries the recent window holds the last seven and the
      comparison window the first three; with five, the recent window holds
      all of them and the comparison window none. */
  lemma TrendWindowExamples(log: seq<Entry>)
    ensures |log| == 10 ==> Recent(log) == log[3..] && Previous(log) == log[..3]
    ensures |log| == 5 ==> Recent(log) == log && Previous(log) == []
  {
  }

  /** The recent window is what the home page shows, and both are the tail
      of the chart data. */
  lemma ViewsNest(log: seq<Entry>)
    ensures Recent(log) == HomeView(log)
    ensures var chart := ChartData(log);
      HomeView(log) == chart[|chart| - |HomeView(log)|..]
  {
  }

  /** Adding an entry shows it last on the home page and pushes out the
      oldest shown entry once seven are shown. */
  lemma HomeViewAfterAppend(log: seq<Entry>, e: Entry)
    ensures HomeView(log + [e]) ==
      (if |log| < HomeSize then HomeView(log) else HomeView(log)[1..]) + [e]
  {
  }
}
