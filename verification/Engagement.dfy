/** The numerator of the engagement rate (apps/analytics/derive.py), in exact arithmetic. */
module Engagement {
  import opened Common

  type Series = seq<real>

  /** Where the slice `s[-n:]` of a sequence of the given length begins; `-0` means 0. */
  function Edge(len: nat, n: nat): (k: nat)
    ensures k <= len
  {
    if n == 0 || n >= len then 0 else len - n
  }

  function Tail(s: Series, n: nat): Series {
    s[Edge(|s|, n)..]
  }

  datatype Windows = Windows(cur: Series, prev: Series)

  function Split(s: Series, days: nat): Windows {
    Windows(Tail(s, days), s[Edge(|s|, 2 * days)..Edge(|s|, days)])
  }

  /** The latest days are current and the stretch before them is previous. */
  lemma WindowsTile(s: Series, days: nat)
    requires days > 0
    ensures var w := Split(s, days);
            var kept := if |s| < 2 * days then |s| else 2 * days;
            && w.prev + w.cur == s[|s| - kept..]
            && |w.cur| == if |s| < days then |s| else days
  {
  }

  /** What a count card shows for one metric: its sum over either window. */
  datatype Sums = Sums(cur: real, prev: real)

  function CountSums(s: Series, days: nat): Sums {
    var w := Split(s, days);
    Sums(SeqSum(w.cur), SeqSum(w.prev))
  }

  function Cards(parts: seq<Series>, days: nat): seq<Sums> {
    seq(|parts|, i requires 0 <= i < |parts| => CountSums(parts[i], days))
  }

  /** The first `n` cards added up. */
  function Total(cards: seq<Sums>, n: nat): Sums
    requires n <= |cards|
  {
    if n == 0 then Sums(0.0, 0.0)
    else
      var t := Total(cards, n - 1);
      Sums(t.cur + cards[n - 1].cur, t.prev + cards[n - 1].prev)
  }

  // ---------------------------------------------------------------------
  // The numerator: day by day first, then over the window
  // ---------------------------------------------------------------------

  function Aligned(parts: seq<Series>, days: nat): seq<Series> {
    seq(|parts|, i requires 0 <= i < |parts| => Tail(parts[i], 2 * days))
  }

  /** The greatest length among the first `n` rows, or 0. */
  function Longest(rows: seq<Series>, n: nat): (len: nat)
    requires n <= |rows|
    ensures forall i :: 0 <= i < n ==> |rows[i]| <= len
    ensures len == 0 || exists i :: 0 <= i < n && |rows[i]| == len
  {
    if n == 0 then 0
    else
      var len := Longest(rows, n - 1);
      if |rows[n - 1]| > len then |rows[n - 1]| else len
  }

  /** Padded with zeros after the last day. */
  function Pad(row: Series, len: nat): (r: Series)
    requires |row| <= len
    ensures |r| == len && row <= r && forall i :: |row| <= i < len ==> r[i] == 0.0
  {
    row + seq(len - |row|, i => 0.0)
  }

  function Padded(rows: seq<Series>): seq<Series> {
    var len := Longest(rows, |rows|);
    seq(|rows|, i requires 0 <= i < |rows| => Pad(rows[i], len))
  }

  function ColumnSum(rows: seq<Series>, n: nat, j: nat): real
    requires n <= |rows| && forall i :: 0 <= i < n ==> j < |rows[i]|
  {
    if n == 0 then 0.0 else ColumnSum(rows, n - 1, j) + rows[n - 1][j]
  }

  function Columns(rows: seq<Series>, len: nat): Series
    requires forall i :: 0 <= i < |rows| ==> |rows[i]| == len
  {
    seq(len, j requires 0 <= j < len => ColumnSum(rows, |rows|, j))
  }

  function PartsPerDay(parts: seq<Series>, days: nat): Series {
    var rows := Aligned(parts, days);
    Columns(Padded(rows), Longest(rows, |rows|))
  }

  function Numerator(parts: seq<Series>, days: nat): Sums {
    CountSums(PartsPerDay(parts, days), days)
  }

  // ---------------------------------------------------------------------
  // Exchanging the two sums
  // ---------------------------------------------------------------------

  function RowSums(rows: seq<Series>, n: nat, a: nat, b: nat): real
    requires n <= |rows| && a <= b && forall i :: 0 <= i < n ==> b <= |rows[i]|
  {
    if n == 0 then 0.0 else RowSums(rows, n - 1, a, b) + SeqSum(rows[n - 1][a..b])
  }

  lemma {:induction false} RowSumsGrow(rows: seq<Series>, n: nat, a: nat, b: nat)
    requires n <= |rows| && a <= b && forall i :: 0 <= i < n ==> b < |rows[i]|
    ensures RowSums(rows, n, a, b + 1) == RowSums(rows, n, a, b) + ColumnSum(rows, n, b)
  {
    if n > 0 {
      RowSumsGrow(rows, n - 1, a, b);
      var row := rows[n - 1];
      assert row[a..b + 1][..b - a] == row[a..b];
    }
  }

  lemma {:induction false} NoRowSums(rows: seq<Series>, n: nat, a: nat)
    requires n <= |rows| && forall i :: 0 <= i < n ==> a <= |rows[i]|
    ensures RowSums(rows, n, a, a) == 0.0
  {
    if n > 0 {
      NoRowSums(rows, n - 1, a);
    }
  }

  /** Adding up days of totals is adding up totals of days. */
  lemma {:induction false} Exchange(rows: seq<Series>, len: nat, a: nat, b: nat)
    requires a <= b <= len && forall i :: 0 <= i < |rows| ==> |rows[i]| == len
    ensures SeqSum(Columns(rows, len)[a..b]) == RowSums(rows, |rows|, a, b)
    decreases b
  {
    var s := Columns(rows, len);
    if a == b {
      NoRowSums(rows, |rows|, a);
    } else {
      Exchange(rows, len, a, b - 1);
      RowSumsGrow(rows, |rows|, a, b - 1);
      assert s[a..b][..b - 1 - a] == s[a..b - 1];
    }
  }

  /** Each row's sums over both windows of a table `len` days wide. */
  function RowCards(rows: seq<Series>, len: nat, days: nat): seq<Sums>
    requires forall i :: 0 <= i < |rows| ==> |rows[i]| == len
  {
    seq(|rows|, i requires 0 <= i < |rows| =>
      Sums(SeqSum(rows[i][Edge(len, days)..len]), SeqSum(rows[i][Edge(len, 2 * days)..Edge(len, days)])))
  }

  lemma {:induction false} TotalByRows(rows: seq<Series>, n: nat, len: nat, days: nat)
    requires n <= |rows| && forall i :: 0 <= i < |rows| ==> |rows[i]| == len
    ensures Total(RowCards(rows, len, days), n)
         == Sums(RowSums(rows, n, Edge(len, days), len), RowSums(rows, n, Edge(len, 2 * days), Edge(len, days)))
  {
    if n > 0 {
      TotalByRows(rows, n - 1, len, days);
    }
  }

  lemma NumeratorByRows(parts: seq<Series>, days: nat)
    ensures var rows := Aligned(parts, days);
            Numerator(parts, days) == Total(RowCards(Padded(rows), Longest(rows, |rows|), days), |rows|)
  {
    var rows := Aligned(parts, days);
    var len := Longest(rows, |rows|);
    Exchange(Padded(rows), len, Edge(len, days), len);
    Exchange(Padded(rows), len, Edge(len, 2 * days), Edge(len, days));
    assert Tail(PartsPerDay(parts, days), days) == PartsPerDay(parts, days)[Edge(len, days)..len];
    TotalByRows(Padded(rows), |rows|, len, days);
  }

  // ---------------------------------------------------------------------
  // When the numerator is the sum of the cards
  // ---------------------------------------------------------------------

  ghost predicate Constantly(s: Series, v: real) {
    forall i :: 0 <= i < |s| ==> s[i] == v
  }

  lemma {:induction false} ZerosSum(s: Series)
    requires Constantly(s, 0.0)
    ensures SeqSum(s) == 0.0
  {
    if s != [] {
      ZerosSum(s[..|s| - 1]);
    }
  }

  lemma {:induction false} OnesSum(s: Series)
    requires Constantly(s, 1.0)
    ensures SeqSum(s) == |s| as real
  {
    if s != [] {
      OnesSum(s[..|s| - 1]);
    }
  }

  lemma {:induction false} SumWithZeros(s: Series, zeros: Series)
    requires Constantly(zeros, 0.0)
    ensures SeqSum(s + zeros) == SeqSum(s)
  {
    if zeros == [] {
      assert s + zeros == s;
    } else {
      var n := |zeros| - 1;
      SumWithZeros(s, zeros[..n]);
      assert (s + zeros)[..|s| + n] == s + zeros[..n];
    }
  }

  /** Cutting a series to both windows first changes neither. */
  lemma AlignedSplitsAlike(s: Series, days: nat)
    ensures Split(Tail(s, 2 * days), days) == Split(s, days)
  {
  }

  /** A row padded to `len` keeps both its sums if its windows do not shift. */
  lemma PaddedRow(row: Series, len: nat, days: nat)
    requires |row| <= len && (|row| == len || |row| == 0 || len <= days || days == 0)
    requires days > 0 ==> len <= 2 * days
    ensures CountSums(row, days) == Sums(SeqSum(Pad(row, len)[Edge(len, days)..len]),
                                         SeqSum(Pad(row, len)[Edge(len, 2 * days)..Edge(len, days)]))
  {
    var r := Pad(row, len);
    if |row| == len {
      assert r == row;
    } else if |row| == 0 {
      ZerosSum(r[Edge(len, days)..len]);
      ZerosSum(r[Edge(len, 2 * days)..Edge(len, days)]);
    } else {
      SumWithZeros(row, r[|row|..]);
      assert r[0..len] == row + r[|row|..] && Tail(row, days) == row;
    }
  }

  /** Whether parts of these lengths add up: two of different lengths, neither empty, must
      both fit into the current window. */
  ghost predicate Fitting(lengths: seq<nat>, days: nat) {
    forall i, j :: 0 <= i < |lengths| && 0 <= j < |lengths| && 0 < lengths[i] < lengths[j] && lengths[i] < 2 * days ==>
      lengths[j] <= days
  }

  ghost predicate HasLengths(parts: seq<Series>, lengths: seq<nat>) {
    |parts| == |lengths| && forall i :: 0 <= i < |parts| ==> |parts[i]| == lengths[i]
  }

  ghost predicate AddsUp(parts: seq<Series>, days: nat) {
    Numerator(parts, days) == Total(Cards(parts, days), |parts|)
  }

  lemma RowsAddUp(parts: seq<Series>, rows: seq<Series>, len: nat, days: nat)
    requires rows == Aligned(parts, days) && len == Longest(rows, |rows|)
    requires forall i :: 0 <= i < |rows| ==> |rows[i]| == len || |rows[i]| == 0 || len <= days || days == 0
    ensures Cards(parts, days) == RowCards(Padded(rows), len, days)
  {
    forall i | 0 <= i < |parts| ensures Cards(parts, days)[i] == RowCards(Padded(rows), len, days)[i] {
      AlignedSplitsAlike(parts[i], days);
      PaddedRow(rows[i], len, days);
    }
  }

  lemma FittingAddsUp(parts: seq<Series>, lengths: seq<nat>, days: nat)
    requires HasLengths(parts, lengths) && Fitting(lengths, days)
    ensures AddsUp(parts, days)
  {
    var rows := Aligned(parts, days);
    var len := Longest(rows, |rows|);
    forall i | 0 <= i < |rows|
      ensures |rows[i]| == len || |rows[i]| == 0 || len <= days || days == 0
    {
      if len > 0 {
        var j :| 0 <= j < |rows| && |rows[j]| == len;
        assert |rows[i]| == lengths[i] - Edge(lengths[i], 2 * days);
        assert |rows[j]| == lengths[j] - Edge(lengths[j], 2 * days);
      }
    }
    RowsAddUp(parts, rows, len, days);
    NumeratorByRows(parts, days);
  }

  // ---------------------------------------------------------------------
  // And when not
  // ---------------------------------------------------------------------

  /** One part of ones, all the others of zeros. */
  function Spike(lengths: seq<nat>, i: nat): seq<Series> {
    seq(|lengths|, k requires 0 <= k < |lengths| => seq(lengths[k], d => if k == i then 1.0 else 0.0))
  }

  lemma {:induction false} OnlyOneCounts(cards: seq<Sums>, n: nat, i: nat)
    requires n <= |cards| && forall k :: 0 <= k < n && k != i ==> cards[k].cur == 0.0
    ensures Total(cards, n).cur == if i < n then cards[i].cur else 0.0
  {
    if n > 0 {
      OnlyOneCounts(cards, n - 1, i);
    }
  }

  /** A shorter part is padded after its last day, which pushes days out of the window. */
  lemma ShortRowLoses(row: Series, len: nat, days: nat)
    requires 0 < |row| < len && len > days > 0 && Constantly(row, 1.0)
    ensures SeqSum(Pad(row, len)[Edge(len, days)..len]) < SeqSum(Tail(row, days))
  {
    var window := Pad(row, len)[len - days..len];
    var kept := if len - days < |row| then |row| - (len - days) else 0;
    assert window == window[..kept] + window[kept..];
    SumWithZeros(window[..kept], window[kept..]);
    OnesSum(window[..kept]);
    OnesSum(Tail(row, days));
  }

  lemma SpikeCards(parts: seq<Series>, i: nat, days: nat)
    requires i < |parts| && forall k :: 0 <= k < |parts| && k != i ==> Constantly(parts[k], 0.0)
    ensures Total(Cards(parts, days), |parts|).cur == SeqSum(Tail(parts[i], days))
  {
    forall k | 0 <= k < |parts| && k != i ensures Cards(parts, days)[k].cur == 0.0 {
      ZerosSum(Tail(parts[k], days));
    }
    OnlyOneCounts(Cards(parts, days), |parts|, i);
  }

  lemma SpikeRows(rows: seq<Series>, i: nat, len: nat, days: nat)
    requires i < |rows| && forall k :: 0 <= k < |rows| ==> |rows[k]| == len
    requires forall k :: 0 <= k < |rows| && k != i ==> Constantly(rows[k], 0.0)
    ensures Total(RowCards(rows, len, days), |rows|).cur == SeqSum(rows[i][Edge(len, days)..len])
  {
    var cards := RowCards(rows, len, days);
    forall k | 0 <= k < |rows| && k != i ensures cards[k].cur == 0.0 {
      ZerosSum(rows[k][Edge(len, days)..len]);
    }
    OnlyOneCounts(cards, |rows|, i);
  }

  lemma PaddedZeros(parts: seq<Series>, i: nat, days: nat)
    requires forall k :: 0 <= k < |parts| && k != i ==> Constantly(parts[k], 0.0)
    ensures forall k :: 0 <= k < |parts| && k != i ==> Constantly(Padded(Aligned(parts, days))[k], 0.0)
  {
    forall k | 0 <= k < |parts| && k != i ensures Constantly(Padded(Aligned(parts, days))[k], 0.0) {
      assert Constantly(parts[k], 0.0);
    }
  }

  lemma SpikeNumerator(parts: seq<Series>, i: nat, days: nat)
    requires i < |parts| && |parts[i]| <= 2 * days && forall k :: 0 <= k < |parts| && k != i ==> Constantly(parts[k], 0.0)
    ensures var rows := Aligned(parts, days);
            var len := Longest(rows, |rows|);
            |parts[i]| <= len && Numerator(parts, days).cur == SeqSum(Pad(parts[i], len)[Edge(len, days)..len])
  {
    var rows := Aligned(parts, days);
    assert rows[i] == parts[i];
    NumeratorByRows(parts, days);
    PaddedZeros(parts, i, days);
    SpikeRows(Padded(rows), i, Longest(rows, |rows|), days);
  }

  lemma SpikeFallsShort(parts: seq<Series>, i: nat, days: nat)
    requires i < |parts| && 0 < |parts[i]| < 2 * days && Constantly(parts[i], 1.0)
    requires forall k :: 0 <= k < |parts| && k != i ==> Constantly(parts[k], 0.0)
    requires var rows := Aligned(parts, days); days < Longest(rows, |rows|) && |parts[i]| < Longest(rows, |rows|)
    ensures Numerator(parts, days).cur < Total(Cards(parts, days), |parts|).cur
  {
    var rows := Aligned(parts, days);
    SpikeNumerator(parts, i, days);
    SpikeCards(parts, i, days);
    ShortRowLoses(parts[i], Longest(rows, |rows|), days);
  }

  lemma SpikeShape(lengths: seq<nat>, i: nat)
    requires i < |lengths|
    ensures HasLengths(Spike(lengths, i), lengths)
    ensures Constantly(Spike(lengths, i)[i], 1.0)
    ensures forall k :: 0 <= k < |lengths| && k != i ==> Constantly(Spike(lengths, i)[k], 0.0)
  {
  }

  lemma LongestReaches(parts: seq<Series>, days: nat, j: nat)
    requires j < |parts| && |parts[j]| > days > 0
    ensures var rows := Aligned(parts, days);
            Longest(rows, |rows|) > days && Longest(rows, |rows|) >= if |parts[j]| < 2 * days then |parts[j]| else 2 * days
  {
    var rows := Aligned(parts, days);
    assert |rows[j]| <= Longest(rows, |rows|);
  }

  lemma MisfitFallsShort(lengths: seq<nat>, i: nat, j: nat, days: nat)
    requires i < |lengths| && j < |lengths|
    requires 0 < lengths[i] < lengths[j] && lengths[i] < 2 * days && lengths[j] > days
    ensures HasLengths(Spike(lengths, i), lengths) && !AddsUp(Spike(lengths, i), days)
  {
    SpikeShape(lengths, i);
    LongestReaches(Spike(lengths, i), days, j);
    SpikeFallsShort(Spike(lengths, i), i, days);
  }

  /** For given lengths the numerator is the sum of the parts' own cards, in both windows and
      whatever the values, exactly when the lengths fit. */
  lemma NumeratorAddsUpIff(lengths: seq<nat>, days: nat)
    ensures (forall parts :: HasLengths(parts, lengths) ==> AddsUp(parts, days)) <==> Fitting(lengths, days)
  {
    if Fitting(lengths, days) {
      forall parts | HasLengths(parts, lengths) ensures AddsUp(parts, days) {
        FittingAddsUp(parts, lengths, days);
      }
    } else {
      var i, j :| 0 <= i < |lengths| && 0 <= j < |lengths| && 0 < lengths[i] < lengths[j] && lengths[i] < 2 * days
                  && lengths[j] > days;
      MisfitFallsShort(lengths, i, j, days);
    }
  }

  /** The series the dashboard passes in all cover both windows, so there it always holds. */
  lemma FullSeriesAddUp(parts: seq<Series>, days: nat)
    requires forall i :: 0 <= i < |parts| ==> |parts[i]| == 2 * days
    ensures Numerator(parts, days) == Total(Cards(parts, days), |parts|)
  {
    FittingAddsUp(parts, seq(|parts|, i => 2 * days), days);
  }
}
