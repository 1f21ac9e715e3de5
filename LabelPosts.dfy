/** The post labeller: it reads the coordinate file written by the recorder,
    numbers the posts cyclically 1..8, and draws each post's label in blue to
    its left and the label of the mirror-image post in red to its right. The
    pixels drawn are not modelled; the text draws are. */
module LabelPosts {
  import opened Wrappers
  import opened Text
  import opened Coordinates
  import opened DivMod

  // ---------------------------------------------------------------- parsing

  /** What one line of the file contributes. */
  datatype LineResult = Skip | Point(x: int, y: int) | Bad

  /** One iteration of the reading loop: a line that strips to nothing is
      skipped; any other must split on ',' into exactly two parts that `int()`
      accepts, or the script stops with an error. */
  function ParseLine(line: string): (r: LineResult)
    ensures r.Skip? <==> PyStrip(line) == ""
  {
    var t := PyStrip(line);
    if t == "" then Skip
    else
      var parts := Split(t, ',');
      if |parts| != 2 then Bad
      else match (PyInt(parts[0]), PyInt(parts[1]))
        case (Some(x), Some(y)) => Point(x, y)
        case _ => Bad
  }

  /** The coordinates that a run of per-line results gives, in order, or
      the index of the first bad line. */
  function Collect(rs: seq<LineResult>): (r: Result<seq<(int, int)>, nat>)
    ensures r.Ok? ==> |r.value| <= |rs|
    ensures r.Err? ==> r.error < |rs| && rs[r.error].Bad?
  {
    if rs == [] then Ok([])
    else
      var n := |rs| - 1;
      match Collect(rs[..n])
      case Err(k) => Err(k)
      case Ok(cs) =>
        match rs[n]
        case Skip => Ok(cs)
        case Point(x, y) => Ok(cs + [(x, y)])
        case Bad => Err(n)
  }

  /** What the reading loop makes of a file's lines. */
  function ParseLines(ls: seq<string>): Result<seq<(int, int)>, nat> {
    Collect(LineResults(ls))
  }

  /** The per-line results of a file's lines. */
  function LineResults(ls: seq<string>): (rs: seq<LineResult>)
    ensures |rs| == |ls|
  {
    seq(|ls|, k requires 0 <= k < |ls| => ParseLine(ls[k]))
  }

  /** On success each point line gives exactly one coordinate and skipped
      lines give none; on failure the reported line is bad and all before it
      are good. */
  lemma {:induction false} CollectSpec(rs: seq<LineResult>)
    ensures match Collect(rs)
      case Ok(cs) =>
        && |cs| == |set k | 0 <= k < |rs| && rs[k].Point?|
        && forall k :: 0 <= k < |rs| ==> !rs[k].Bad?
      case Err(e) =>
        && e < |rs| && rs[e].Bad?
        && forall k :: 0 <= k < e ==> !rs[k].Bad?
  {
    if rs != [] {
      var n := |rs| - 1;
      var init := rs[..n];
      CollectSpec(init);
      var before := set k | 0 <= k < n && init[k].Point?;
      var now := set k | 0 <= k < |rs| && rs[k].Point?;
      assert before == set k | 0 <= k < n && rs[k].Point?;
      if rs[n].Point? {
        assert now == before + {n};
      } else {
        assert now == before;
      }
    }
  }

  /** Once a prefix fails, the whole run fails at the same line. */
  lemma {:induction false} CollectErrSticky(rs: seq<LineResult>, m: nat)
    requires m <= |rs| && Collect(rs[..m]).Err?
    ensures Collect(rs) == Collect(rs[..m])
    decreases |rs| - m
  {
    if m < |rs| {
      assert rs[..m + 1][..m] == rs[..m];
      CollectErrSticky(rs, m + 1);
    } else {
      assert rs[..m] == rs;
    }
  }

  /** One more line extends a successful run by what that line gives. */
  lemma CollectStep(rs: seq<LineResult>, i: nat, coords: seq<(int, int)>)
    requires i < |rs| && Collect(rs[..i]) == Ok(coords)
    ensures rs[i].Skip? ==> Collect(rs[..i + 1]) == Ok(coords)
    ensures rs[i].Point? ==> Collect(rs[..i + 1]) == Ok(coords + [(rs[i].x, rs[i].y)])
    ensures rs[i].Bad? ==> Collect(rs[..i + 1]) == Err(i)
  {
    assert rs[..i + 1][..i] == rs[..i];
  }

  /** The reading loop over the lines of the file. */
  method ReadCoordinates(text: string) returns (r: Result<seq<(int, int)>, nat>)
    ensures r == ParseLines(FileLines(text))
  {
    var ls := FileLines(text);
    ghost var rs := LineResults(ls);
    var coords: seq<(int, int)> := [];
    var i := 0;
    while i < |ls|
      invariant 0 <= i <= |ls|
      invariant Collect(rs[..i]) == Ok(coords)
    {
      var res := ParseLine(ls[i]);
      assert rs[i] == res;
      CollectStep(rs, i, coords);
      match res {
        case Skip =>
        case Point(x, y) =>
          coords := coords + [(x, y)];
        case Bad =>
          CollectErrSticky(rs, i + 1);
          return Err(i);
      }
      i := i + 1;
    }
    assert rs[..i] == rs;
    r := Ok(coords);
  }

  /** Stripping a written line removes exactly its line break. */
  lemma StripFormatLine(c: (int, int))
    ensures PyStrip(FormatLine(c)) == IntToDecimal(c.0) + ", " + IntToDecimal(c.1)
  {
    var dx := IntToDecimal(c.0);
    var dy := IntToDecimal(c.1);
    var t := dx + ", " + dy;
    assert FormatLine(c) == t + "\n";
    assert t[0] == dx[0];
    assert t[|t| - 1] == dy[|dy| - 1];
    PyStripLineBreak(t);
  }

  lemma NoCommaInDecimal(n: int)
    ensures ',' !in IntToDecimal(n)
  {
    var d := IntToDecimal(n);
    forall k | 0 <= k < |d| ensures d[k] != ',' {
      if k > 0 { assert IsDigit(d[k]); }
    }
  }

  /** The stripped line splits into "x" and " y". */
  lemma SplitFormatLine(c: (int, int))
    ensures Split(IntToDecimal(c.0) + ", " + IntToDecimal(c.1), ',')
      == [IntToDecimal(c.0), " " + IntToDecimal(c.1)]
  {
    var dx := IntToDecimal(c.0);
    var dy := IntToDecimal(c.1);
    NoCommaInDecimal(c.0);
    NoCommaInDecimal(c.1);
    assert ',' !in " " + dy by {
      forall k | 0 <= k < |" " + dy| ensures (" " + dy)[k] != ',' {
        if k > 0 { assert (" " + dy)[k] == dy[k - 1]; }
      }
    }
    assert dx + ", " + dy == dx + [','] + (" " + dy);
    SplitAtFirst(dx, ',', " " + dy);
    SplitWithoutSeparator(" " + dy, ',');
  }

  /** A written line reads back as the coordinate it was written from: the
      strip removes the line break, the split gives "x" and " y", and `int()`
      accepts the space in front of y. */
  lemma ParseFormatLine(c: (int, int))
    ensures ParseLine(FormatLine(c)) == Point(c.0, c.1)
  {
    var dx, dy := IntToDecimal(c.0), IntToDecimal(c.1);
    FormatLineParts(c);
    DecimalPartsRead(c);
    ParseTwoParts(FormatLine(c), dx, " " + dy, c.0, c.1);
  }

  /** The stripped written line is "x" and " y" joined by the comma, and
      splits back into those two. */
  lemma FormatLineParts(c: (int, int))
    ensures var dx, dy := IntToDecimal(c.0), IntToDecimal(c.1);
      && PyStrip(FormatLine(c)) == dx + "," + (" " + dy)
      && Split(dx + "," + (" " + dy), ',') == [dx, " " + dy]
  {
    var dx, dy := IntToDecimal(c.0), IntToDecimal(c.1);
    StripFormatLine(c);
    SplitFormatLine(c);
    assert dx + ", " + dy == dx + "," + (" " + dy);
  }

  /** `int()` reads "x" and " y" back as the coordinate's numbers. */
  lemma DecimalPartsRead(c: (int, int))
    ensures PyInt(IntToDecimal(c.0)) == Some(c.0)
    ensures PyInt(" " + IntToDecimal(c.1)) == Some(c.1)
  {
    PlainDecimalRead(c.0);
    SpacedDecimalRead(c.1);
  }

  lemma PlainDecimalRead(n: int)
    ensures PyInt(IntToDecimal(n)) == Some(n)
  {
    var pad: string := [];
    PyIntOfDecimal(pad, n);
    assert pad + IntToDecimal(n) == IntToDecimal(n);
  }

  lemma SpacedDecimalRead(n: int)
    ensures PyInt(" " + IntToDecimal(n)) == Some(n)
  {
    var pad: string := [' '];
    assert PyIsSpace(pad[0]);
    PyIntOfDecimal(pad, n);
  }

  /** A line whose stripped text splits into two parts that `int()`
      accepts reads as that point. */
  lemma ParseTwoParts(line: string, a: string, b: string, x: int, y: int)
    requires PyStrip(line) == a + "," + b
    requires Split(a + "," + b, ',') == [a, b]
    requires PyInt(a) == Some(x) && PyInt(b) == Some(y)
    ensures ParseLine(line) == Point(x, y)
  {
    assert |a + "," + b| > 0;
  }

  /** Lines that all read as points give those points in order. */
  lemma {:induction false} CollectAllPoints(rs: seq<LineResult>, cs: seq<(int, int)>)
    requires |rs| == |cs|
    requires forall k :: 0 <= k < |rs| ==> rs[k] == Point(cs[k].0, cs[k].1)
    ensures Collect(rs) == Ok(cs)
  {
    if rs != [] {
      var n := |rs| - 1;
      CollectAllPoints(rs[..n], cs[..n]);
      assert cs[..n] + [(cs[n].0, cs[n].1)] == cs;
    }
  }

  /** Round trip: the labeller reads back exactly the list the recorder
      wrote, one coordinate per written line. */
  lemma RoundTrip(cs: seq<(int, int)>)
    ensures |FileLines(Render(cs))| == |cs|
    ensures ParseLines(FileLines(Render(cs))) == Ok(cs)
  {
    LinesOfRender(cs);
    RenderWithoutReturn(cs);
    UniversalWithoutReturn(Render(cs));
    var ls := FileLines(Render(cs));
    var rs := LineResults(ls);
    forall k | 0 <= k < |ls| ensures rs[k] == Point(cs[k].0, cs[k].1) {
      ParseFormatLine(cs[k]);
    }
    CollectAllPoints(rs, cs);
  }

  /** Reading "1, 2\r3, 4\n" with universal newlines gives "1, 2\n3, 4\n". */
  lemma ReturnTextTranslated()
    ensures Universal("1, 2\r3, 4\n") == "1, 2\n3, 4\n"
  {
    var a, b := "1, 2", "3, 4\n";
    assert "1, 2\r3, 4\n" == a + "\r" + b;
    UniversalLoneReturn(a, b);
    UniversalWithoutReturn(b);
    assert a + "\n" + b == "1, 2\n3, 4\n";
  }

  /** The recorder writes (1, 2) and (3, 4) as "1, 2\n3, 4\n". */
  lemma TwoPointsRendered()
    ensures Render([(1, 2), (3, 4)]) == "1, 2\n3, 4\n"
  {
    var cs: seq<(int, int)> := [(1, 2), (3, 4)];
    assert IntToDecimal(1) == "1" && IntToDecimal(2) == "2";
    assert IntToDecimal(3) == "3" && IntToDecimal(4) == "4";
    assert FormatLine(cs[0]) == "1, 2\n";
    assert FormatLine(cs[1]) == "3, 4\n";
    assert Render(cs) == FormatLine(cs[0]) + FormatLine(cs[1]) by {
      assert |cs[1..][1..]| == 0;
    }
  }

  /** A file whose two lines are separated by a lone carriage return reads
      as two coordinates. */
  lemma CarriageReturnEndsLine()
    ensures ParseLines(FileLines("1, 2\r3, 4\n")) == Ok([(1, 2), (3, 4)])
  {
    var s, cs := "1, 2\r3, 4\n", [(1, 2), (3, 4)];
    ReturnTextTranslated();
    TwoPointsRendered();
    assert FileLines(s) == FileLines(Render(cs)) by {
      assert FileLines(s) == Lines(Universal(s));
      assert FileLines(Render(cs)) == Lines(Universal(Render(cs)));
      RenderWithoutReturn(cs);
      UniversalWithoutReturn(Render(cs));
    }
    RoundTrip(cs);
  }

  // --------------------------------------------------------------- labels

  /** `cyclic_labels(n, cycle)`: post i gets (i mod cycle) + 1. */
  function CyclicLabels(n: nat, cycle: int): (ls: seq<int>)
    requires cycle > 0
    ensures |ls| == n
    ensures forall i :: 0 <= i < n ==> 1 <= ls[i] <= cycle
  {
    seq(n, i => (i % cycle) + 1)
  }

  /** Labels repeat with period `cycle`, and the first `cycle` posts get
      1, 2, ..., cycle. */
  lemma CyclicLabelsPeriodic(n: nat, cycle: int)
    requires cycle > 0
    ensures forall i :: 0 <= i < n - cycle ==> CyclicLabels(n, cycle)[i + cycle] == CyclicLabels(n, cycle)[i]
    ensures forall i :: 0 <= i < n && i < cycle ==> CyclicLabels(n, cycle)[i] == i + 1
  {
    var ls := CyclicLabels(n, cycle);
    forall i | 0 <= i < n - cycle
      ensures ls[i + cycle] == ls[i]
    {
      ModShift(i, cycle);
    }
    forall i | 0 <= i < n && i < cycle
      ensures ls[i] == i + 1
    {
      DivModUnique(i, cycle, 0, i);
    }
  }

  const BlueLeeway: int := -30
  const RedLeeway: int := 10
  const LabelCycle: int := 8

  datatype Ink = BlueInk | RedInk

  /** One `cv2.putText` call: the text, its anchor and its colour. */
  datatype TextDraw = TextDraw(text: string, x: int, y: int, ink: Ink)

  /** The two draws for post i: its own label in blue 30 pixels to the left,
      and the label of post n-1-i in red 10 pixels to the right. */
  function PostDraws(coords: seq<(int, int)>, i: nat): seq<TextDraw>
    requires i < |coords|
  {
    var labels := CyclicLabels(|coords|, LabelCycle);
    var rev := labels[|coords| - 1 - i];
    var (x, y) := coords[i];
    [TextDraw(IntToDecimal(labels[i]), x + BlueLeeway, y, BlueInk),
     TextDraw(IntToDecimal(rev), x + RedLeeway, y, RedInk)]
  }

  /** All the label draws, post by post in file order. */
  function LabelDraws(coords: seq<(int, int)>, upTo: nat): seq<TextDraw>
    requires upTo <= |coords|
  {
    if upTo == 0 then [] else LabelDraws(coords, upTo - 1) + PostDraws(coords, upTo - 1)
  }

  /** The drawing loop over `zip(coords, labels, reversed(labels))`. */
  method DrawLabels(coords: seq<(int, int)>) returns (draws: seq<TextDraw>)
    ensures draws == LabelDraws(coords, |coords|)
  {
    var labels := CyclicLabels(|coords|, LabelCycle);
    var labelsRev := seq(|labels|, k requires 0 <= k < |labels| => labels[|labels| - 1 - k]);
    draws := [];
    for i := 0 to |coords|
      invariant draws == LabelDraws(coords, i)
    {
      var x, y := coords[i].0, coords[i].1;
      var blue := TextDraw(IntToDecimal(labels[i]), x + BlueLeeway, y, BlueInk);
      var red := TextDraw(IntToDecimal(labelsRev[i]), x + RedLeeway, y, RedInk);
      assert [blue, red] == PostDraws(coords, i);
      draws := draws + [blue, red];
    }
  }

  lemma {:induction false} LabelDrawsLayout(coords: seq<(int, int)>, upTo: nat)
    requires upTo <= |coords|
    ensures |LabelDraws(coords, upTo)| == 2 * upTo
    ensures forall i :: 0 <= i < upTo ==>
      LabelDraws(coords, upTo)[2 * i] == PostDraws(coords, i)[0]
      && LabelDraws(coords, upTo)[2 * i + 1] == PostDraws(coords, i)[1]
  {
    if upTo > 0 {
      LabelDrawsLayout(coords, upTo - 1);
    }
  }

  /** Every post gets a blue and a red label; the red label of post i is the
      blue label of post n-1-i; the blue label sits 30 pixels left and the
      red label 10 pixels right of the post, on its baseline. */
  lemma LabelPairing(coords: seq<(int, int)>)
    ensures var n := |coords|; var d := LabelDraws(coords, n);
      && |d| == 2 * n
      && forall i :: 0 <= i < n ==>
           && d[2 * i].ink == BlueInk && d[2 * i + 1].ink == RedInk
           && d[2 * i + 1].text == d[2 * (n - 1 - i)].text
           && d[2 * i].x == coords[i].0 - 30 && d[2 * i].y == coords[i].1
           && d[2 * i + 1].x == coords[i].0 + 10 && d[2 * i + 1].y == coords[i].1
  {
    LabelDrawsLayout(coords, |coords|);
  }
}
