/** The desktop tool's artwork tally: post i of a side gets artwork
    (i mod N) + 1, and both the summary table and the saved text report list,
    for every artwork 1..N, how many posts get it (per side and in total on a
    two-way road). */
module CyclicTally {
  import opened Text
  import opened DivMod
  import opened Placements
  import opened LabelPosts

  /** `Counter(labels).get(v, 0)`. */
  function Count(labels: seq<int>, v: int): (c: nat)
    ensures c <= |labels|
    ensures (forall k :: 0 <= k < |labels| ==> labels[k] != v) ==> c == 0
  {
    if labels == [] then 0
    else Count(labels[..|labels| - 1], v) + (if labels[|labels| - 1] == v then 1 else 0)
  }

  /** Out of L posts cycling through N artworks, artwork n goes to
      floor(L / N) posts, plus one more when n is among the first L mod N. */
  lemma {:induction false} CountCyclic(L: nat, N: int, n: int)
    requires N > 0 && 1 <= n <= N
    ensures Count(CyclicLabels(L, N), n) == L / N + (if n - 1 < L % N then 1 else 0)
  {
    if L > 0 {
      var m := L - 1;
      CountCyclic(m, N, n);
      assert CyclicLabels(L, N)[..m] == CyclicLabels(m, N);
      DivModStep(m, N);
    }
  }

  /** The tally as the list of counts for artworks 1..N. */
  function Tally(labels: seq<int>, N: nat): (t: seq<nat>)
    ensures |t| == N
  {
    seq(N, k => Count(labels, k + 1))
  }

  function Sum(s: seq<nat>): nat {
    if s == [] then 0 else Sum(s[..|s| - 1]) + s[|s| - 1]
  }

  lemma {:induction false} SumIncrement(s: seq<nat>, k: nat)
    requires k < |s|
    ensures Sum(s[k := s[k] + 1]) == Sum(s) + 1
  {
    var n := |s| - 1;
    var t := s[k := s[k] + 1];
    assert t[..n] == if k < n then s[..n][k := s[k] + 1] else s[..n];
    if k < n {
      SumIncrement(s[..n], k);
    }
  }

  /** When every label names an artwork 1..N, the counts add up to the
      number of posts: every post is counted exactly once. */
  lemma {:induction false} TallySum(labels: seq<int>, N: nat)
    requires forall i :: 0 <= i < |labels| ==> 1 <= labels[i] <= N
    ensures Sum(Tally(labels, N)) == |labels|
  {
    if labels == [] {
      ZeroSum(N);
    } else {
      var m := |labels| - 1;
      var v := labels[m];
      TallySum(labels[..m], N);
      assert Tally(labels, N) == Tally(labels[..m], N)[v - 1 := Tally(labels[..m], N)[v - 1] + 1];
      SumIncrement(Tally(labels[..m], N), v - 1);
    }
  }

  lemma {:induction false} ZeroSum(N: nat)
    ensures Sum(Tally([], N)) == 0
  {
    if N > 0 {
      ZeroSum(N - 1);
      assert Tally([], N)[..N - 1] == Tally([], N - 1);
    }
  }

  /** The cyclic labels of L posts are counted completely. */
  lemma CyclicTallySum(L: nat, N: int)
    requires N > 0
    ensures Sum(Tally(CyclicLabels(L, N), N)) == L
  {
    TallySum(CyclicLabels(L, N), N);
  }

  // --------------------------------------------------------- summary table

  /** One row of the summary table. */
  datatype SummaryRow =
    | SingleRow(artwork: int, count: nat)
    | TwoRow(artwork: int, total: nat, side1: nat, side2: nat)

  /** `show_summary`'s table for L1 posts on side 1 and L2 on side 2: one row
      per artwork 1..N, zero counts included. */
  function SummaryRows(mode: Mode, N: nat, L1: nat, L2: nat): (rows: seq<SummaryRow>)
    requires N > 0
    ensures |rows| == N
  {
    var c1 := Tally(CyclicLabels(L1, N), N);
    var c2 := Tally(CyclicLabels(L2, N), N);
    seq(N, k requires 0 <= k < N =>
      if mode == Single then SingleRow(k + 1, c1[k])
      else TwoRow(k + 1, c1[k] + c2[k], c1[k], c2[k]))
  }

  /** Row k is about artwork k + 1, its counts are the closed-form cyclic
      counts, and in two-way mode its total is side 1 plus side 2. */
  lemma SummaryRowsSpec(mode: Mode, N: nat, L1: nat, L2: nat, k: nat)
    requires N > 0 && k < N
    ensures var r := SummaryRows(mode, N, L1, L2)[k];
      && r.artwork == k + 1
      && (mode == Single <==> r.SingleRow?)
      && (r.SingleRow? ==> r.count == L1 / N + (if k < L1 % N then 1 else 0))
      && (r.TwoRow? ==>
            && r.side1 == L1 / N + (if k < L1 % N then 1 else 0)
            && r.side2 == L2 / N + (if k < L2 % N then 1 else 0)
            && r.total == r.side1 + r.side2)
  {
    CountCyclic(L1, N, k + 1);
    CountCyclic(L2, N, k + 1);
  }

  // ------------------------------------------------------------ the report

  /** The report line for one table row. */
  function RowLine(r: SummaryRow): (l: string)
    ensures "Artwork #" + IntToDecimal(r.artwork) + ": " <= l
  {
    match r
    case SingleRow(n, c) =>
      "Artwork #" + IntToDecimal(n) + ": " + IntToDecimal(c) + " copies"
    case TwoRow(n, t, a, b) =>
      "Artwork #" + IntToDecimal(n) + ": " + IntToDecimal(t) + " copies (Side 1: "
        + IntToDecimal(a) + ", Side 2: " + IntToDecimal(b) + ")"
  }

  /** The report's lines before the per-artwork rows; `generated` is the
      formatted current time. */
  function ReportHeader(mode: Mode, N: nat, L1: nat, L2: nat, generated: string): (h: seq<string>)
    ensures |h| == (if mode == Single then 10 else 12)
    ensures h[0] == "Artwork SEQUENCING REPORT" && h[|h| - 2] == "Artwork Requirements:"
  {
    ["Artwork SEQUENCING REPORT",
     Repeat('=', 50),
     "Generated: " + generated,
     "Road Type: " + (if mode == Single then "Single Way" else "Two Way"),
     "Unique Artworks: " + IntToDecimal(N),
     ""]
    + (if mode == Single then
         ["Total Lamp Posts: " + IntToDecimal(L1),
          "",
          "Artwork Requirements:",
          Repeat('-', 30)]
       else
         ["Side 1 Lamp Posts: " + IntToDecimal(L1),
          "Side 2 Lamp Posts: " + IntToDecimal(L2),
          "Total Lamp Posts: " + IntToDecimal(L1 + L2),
          "",
          "Artwork Requirements:",
          Repeat('-', 50)])
  }

  /** `save_report`: the lines of the written file (each ends in a line
      break in the file). The header is written first, then the loop writes
      one row per artwork 1..N. */
  method SaveReport(mode: Mode, N: nat, L1: nat, L2: nat, generated: string) returns (lines: seq<string>)
    requires N > 0
    ensures var h := ReportHeader(mode, N, L1, L2, generated);
      && |lines| == |h| + N
      && lines[..|h|] == h
      && forall k :: 0 <= k < N ==> lines[|h| + k] == RowLine(SummaryRows(mode, N, L1, L2)[k])
  {
    var h := ReportHeader(mode, N, L1, L2, generated);
    var body := RequirementLines(mode, N, L1, L2);
    lines := h + body;
    assert lines[..|h|] == h;
    assert forall k :: 0 <= k < N ==> lines[|h| + k] == body[k];
  }

  /** The loop writing the "Artwork #n" lines. */
  method RequirementLines(mode: Mode, N: nat, L1: nat, L2: nat) returns (body: seq<string>)
    requires N > 0
    ensures body == RowLines(SummaryRows(mode, N, L1, L2))
  {
    var labels1 := CyclicLabels(L1, N);
    var labels2 := CyclicLabels(L2, N);
    ghost var rows := SummaryRows(mode, N, L1, L2);
    body := [];
    for n := 1 to N + 1
      invariant body == RowLines(rows[..n - 1])
    {
      var c1 := Count(labels1, n);
      var c2 := Count(labels2, n);
      var row := if mode == Single then SingleRow(n, c1) else TwoRow(n, c1 + c2, c1, c2);
      SummaryRowAt(mode, N, L1, L2, n);
      assert rows[..n] == rows[..n - 1] + [row];
      RowLinesSnoc(rows[..n - 1], row);
      body := body + [RowLine(row)];
    }
    assert rows[..N] == rows;
  }

  /** The lines written for a list of rows, one each, in order. */
  function RowLines(rows: seq<SummaryRow>): (ls: seq<string>)
    ensures |ls| == |rows|
  {
    seq(|rows|, k requires 0 <= k < |rows| => RowLine(rows[k]))
  }

  lemma RowLinesSnoc(rows: seq<SummaryRow>, r: SummaryRow)
    ensures RowLines(rows + [r]) == RowLines(rows) + [RowLine(r)]
  {
  }

  lemma SummaryRowAt(mode: Mode, N: nat, L1: nat, L2: nat, n: int)
    requires 1 <= n <= N
    ensures var c1, c2 := Count(CyclicLabels(L1, N), n), Count(CyclicLabels(L2, N), n);
      SummaryRows(mode, N, L1, L2)[n - 1]
        == if mode == Single then SingleRow(n, c1) else TwoRow(n, c1 + c2, c1, c2)
  {
  }

  /** The report has 10 + N lines on a single-way road and 12 + N on a
      two-way road; the "Artwork Requirements:" line and a dash rule come
      right before the rows. */
  lemma ReportShape(mode: Mode, N: nat, L1: nat, L2: nat, generated: string)
    ensures var h := ReportHeader(mode, N, L1, L2, generated);
      && |h| == (if mode == Single then 10 else 12)
      && h[|h| - 2] == "Artwork Requirements:"
      && h[|h| - 1] == Repeat('-', if mode == Single then 30 else 50)
  {
  }

  /** The scenario of 10 posts and 8 artworks on each side: artworks 1 and 2
      are needed twice per side, the others once. */
  lemma TenPostsEightArtworks()
    ensures SummaryRows(Two, 8, 10, 10)[0] == TwoRow(1, 4, 2, 2)
    ensures SummaryRows(Two, 8, 10, 10)[1] == TwoRow(2, 4, 2, 2)
    ensures forall k :: 2 <= k < 8 ==> SummaryRows(Two, 8, 10, 10)[k] == TwoRow(k + 1, 2, 1, 1)
  {
    forall k | 0 <= k < 8 {
      SummaryRowsSpec(Two, 8, 10, 10, k);
    }
  }
}
