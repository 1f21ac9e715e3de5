/** The coordinate recorder: mouse clicks on an image window are collected
    until the 'q' key is pressed, then written one per line as "x, y". The
    window, the drawn dots and the console messages are not modelled; the
    events the window delivers are an input sequence. */
module Coordinates {
  import opened Wrappers
  import opened Text

  /** OpenCV's code for a left-button press. */
  const LButtonDown: int := 1

  /** The code of the character 'q'. */
  const QuitKey: int := 113

  /** What the window delivers: a mouse event with its position, or the
      result of one `cv2.waitKey(1)` poll (-1 when no key was pressed). */
  datatype Input = Mouse(event: int, x: int, y: int) | Key(code: int)

  /** `key & 0xFF` in Python, for every integer, negative ones included. */
  function LowByte(code: int): (b: int)
    ensures 0 <= b < 256
  {
    code % 256
  }

  predicate IsQuit(i: Input) {
    i.Key? && LowByte(i.code) == QuitKey
  }

  /** The position of the first poll that returns 'q', if there is one. */
  function QuitAt(inputs: seq<Input>): (r: Option<nat>)
    ensures r.Some? ==> r.value < |inputs| && IsQuit(inputs[r.value])
    ensures r.Some? ==> forall k :: 0 <= k < r.value ==> !IsQuit(inputs[k])
    ensures r.None? ==> forall k :: 0 <= k < |inputs| ==> !IsQuit(inputs[k])
  {
    if inputs == [] then None
    else if IsQuit(inputs[0]) then Some(0)
    else match QuitAt(inputs[1..])
      case None => None
      case Some(k) => Some(k + 1)
  }

  /** The positions of the left-button presses among the inputs, in order. */
  function Clicks(inputs: seq<Input>): seq<(int, int)> {
    if inputs == [] then []
    else
      var n := |inputs| - 1;
      var last := inputs[n];
      Clicks(inputs[..n]) + (if last.Mouse? && last.event == LButtonDown then [(last.x, last.y)] else [])
  }

  /** Events other than left-button presses and key polls add nothing, so
      the recorded list has one entry per left-button press. */
  lemma {:induction false} ClicksCount(inputs: seq<Input>)
    ensures |Clicks(inputs)| == |set k | 0 <= k < |inputs| && inputs[k].Mouse? && inputs[k].event == LButtonDown|
  {
    if inputs != [] {
      var n := |inputs| - 1;
      ClicksCount(inputs[..n]);
      var before := set k | 0 <= k < n && inputs[..n][k].Mouse? && inputs[..n][k].event == LButtonDown;
      var now := set k | 0 <= k < |inputs| && inputs[k].Mouse? && inputs[k].event == LButtonDown;
      assert before == set k | 0 <= k < n && inputs[k].Mouse? && inputs[k].event == LButtonDown;
      if inputs[n].Mouse? && inputs[n].event == LButtonDown {
        assert now == before + {n};
      } else {
        assert now == before;
      }
    }
  }

  /** The callback's state: the global coordinate list. */
  class Recorder {
    var coords: seq<(int, int)>

    constructor ()
      ensures coords == []
    {
      coords := [];
    }

    /** `click_event`: a left-button press appends its position, any other
        mouse event leaves the list as it was. */
    method ClickEvent(event: int, x: int, y: int)
      modifies this
      ensures coords == old(coords) + (if event == LButtonDown then [(x, y)] else [])
    {
      if event == LButtonDown {
        coords := coords + [(x, y)];
      }
    }

    /** The main loop: mouse events go to the callback, and key polls are
        read until one returns 'q'. `quit` is false when the inputs run out
        first, in which case the window would still be open. The list then
        holds exactly the clicks before the 'q'. */
    method Run(inputs: seq<Input>) returns (quit: bool)
      modifies this
      ensures quit <==> QuitAt(inputs).Some?
      ensures coords == old(coords) + Clicks(inputs[..if quit then QuitAt(inputs).value else |inputs|])
    {
      var i := 0;
      quit := false;
      ghost var start := coords;
      while i < |inputs| && !quit
        invariant 0 <= i <= |inputs|
        invariant coords == start + Clicks(inputs[..i])
        invariant !quit ==> forall k :: 0 <= k < i ==> !IsQuit(inputs[k])
        invariant quit ==> 0 < i && IsQuit(inputs[i - 1]) && forall k :: 0 <= k < i - 1 ==> !IsQuit(inputs[k])
        decreases |inputs| - i, !quit
      {
        var inp := inputs[i];
        assert inputs[..i + 1][..i] == inputs[..i];
        match inp
        case Mouse(event, x, y) =>
          ClickEvent(event, x, y);
          i := i + 1;
        case Key(code) =>
          quit := LowByte(code) == QuitKey;
          i := i + 1;
      }
      QuitAtFirst(inputs, if quit then i - 1 else |inputs|);
      if quit {
        assert coords == old(coords) + Clicks(inputs[..i - 1]) by {
          assert inputs[..i][..i - 1] == inputs[..i - 1];
        }
      } else {
        assert inputs[..i] == inputs;
      }
    }
  }

  /** The first quit poll is at q exactly when q is a quit poll preceded by
      none (with q == |inputs| meaning there is none). */
  lemma QuitAtFirst(inputs: seq<Input>, q: nat)
    requires q <= |inputs|
    requires q < |inputs| ==> IsQuit(inputs[q])
    requires forall k :: 0 <= k < q ==> !IsQuit(inputs[k])
    ensures q < |inputs| ==> QuitAt(inputs) == Some(q)
    ensures q == |inputs| ==> QuitAt(inputs) == None
  {
  }

  // ------------------------------------------------------------- the file

  /** One line of the file: `f"{x}, {y}\n"`. */
  function FormatLine(c: (int, int)): (l: string)
    ensures |l| >= 5 && l[|l| - 1] == '\n'
  {
    IntToDecimal(c.0) + ", " + IntToDecimal(c.1) + "\n"
  }

  /** The whole file for a coordinate list, first coordinate first. */
  function Render(cs: seq<(int, int)>): (r: string)
    ensures |r| >= 5 * |cs|
  {
    if cs == [] then "" else FormatLine(cs[0]) + Render(cs[1..])
  }

  lemma {:induction false} RenderAppend(cs: seq<(int, int)>, c: (int, int))
    ensures Render(cs + [c]) == Render(cs) + FormatLine(c)
  {
    if cs != [] {
      var head, rest := FormatLine(cs[0]), cs[1..];
      assert (cs + [c])[0] == cs[0] && (cs + [c])[1..] == rest + [c];
      assert Render(cs + [c]) == head + Render(rest + [c]);
      RenderAppend(rest, c);
      assert head + (Render(rest) + FormatLine(c)) == (head + Render(rest)) + FormatLine(c);
    } else {
      assert cs + [c] == [c];
      RenderOne(c);
    }
  }

  lemma RenderOne(c: (int, int))
    ensures Render([c]) == FormatLine(c)
  {
    assert [c][1..] == [];
  }

  /** The writer loop: one `f.write` per coordinate, in list order. */
  method WriteCoordinates(coords: seq<(int, int)>) returns (text: string)
    ensures text == Render(coords)
    ensures coords == [] ==> text == ""
  {
    text := "";
    for i := 0 to |coords|
      invariant text == Render(coords[..i])
    {
      RenderPrefix(coords, i);
      text := text + FormatLine(coords[i]);
    }
    assert coords[..|coords|] == coords;
  }

  lemma RenderPrefix(cs: seq<(int, int)>, i: nat)
    requires i < |cs|
    ensures Render(cs[..i + 1]) == Render(cs[..i]) + FormatLine(cs[i])
  {
    var pre := cs[..i];
    assert cs[..i + 1] == pre + [cs[i]];
    RenderAppend(pre, cs[i]);
  }

  /** Each line holds no line break but its last character. */
  lemma FormatLineShape(c: (int, int))
    ensures var l := FormatLine(c);
      |l| >= 1 && l[|l| - 1] == '\n' && '\n' !in l[..|l| - 1]
  {
    var l := FormatLine(c);
    var a := IntToDecimal(c.0) + ", " + IntToDecimal(c.1);
    assert l == a + "\n";
    assert l[..|l| - 1] == a;
    forall k | 0 <= k < |a| ensures a[k] != '\n' {
      if k < |IntToDecimal(c.0)| {
        assert a[k] == IntToDecimal(c.0)[k];
      } else if k >= |IntToDecimal(c.0)| + 2 {
        assert a[k] == IntToDecimal(c.1)[k - |IntToDecimal(c.0)| - 2];
      }
    }
  }

  /** A formatted line holds no carriage return. */
  lemma FormatLineWithoutReturn(c: (int, int))
    ensures '\r' !in FormatLine(c)
  {
    var dx, dy := IntToDecimal(c.0), IntToDecimal(c.1);
    NoReturnInDecimal(c.0);
    NoReturnInDecimal(c.1);
    var l := FormatLine(c);
    assert l == dx + ", " + dy + "\n";
    forall k | 0 <= k < |l| ensures l[k] != '\r' {
      if k < |dx| {
        assert l[k] == dx[k];
      } else if |dx| + 2 <= k < |dx| + 2 + |dy| {
        assert l[k] == dy[k - |dx| - 2];
      }
    }
  }

  /** The recorder writes no carriage return, so newline translation
      leaves its file as it is. */
  lemma {:induction false} RenderWithoutReturn(cs: seq<(int, int)>)
    ensures '\r' !in Render(cs)
  {
    if cs != [] {
      RenderWithoutReturn(cs[1..]);
      FormatLineWithoutReturn(cs[0]);
      assert Render(cs) == FormatLine(cs[0]) + Render(cs[1..]);
    }
  }

  /** Reading the written file line by line gives back one line per
      coordinate, each the formatted coordinate. */
  lemma {:induction false} LinesOfRender(cs: seq<(int, int)>)
    ensures var ls := Lines(Render(cs));
      |ls| == |cs| && forall k :: 0 <= k < |cs| ==> ls[k] == FormatLine(cs[k])
  {
    if cs != [] {
      LinesOfRender(cs[1..]);
      FirstLineOfRender(cs);
      var ls, rest := Lines(Render(cs)), Lines(Render(cs[1..]));
      forall k | 0 <= k < |cs| ensures ls[k] == FormatLine(cs[k]) {
        if k > 0 {
          assert ls[k] == rest[k - 1] && cs[k] == cs[1..][k - 1];
        }
      }
    }
  }

  /** The first line of a non-empty file is the first coordinate's line. */
  lemma FirstLineOfRender(cs: seq<(int, int)>)
    requires cs != []
    ensures Lines(Render(cs)) == [FormatLine(cs[0])] + Lines(Render(cs[1..]))
  {
    FormatLineShape(cs[0]);
    var l := FormatLine(cs[0]);
    var a, rest := l[..|l| - 1], Render(cs[1..]);
    assert l == a + "\n";
    LinesAtFirstNewline(a, rest);
    assert Render(cs) == a + "\n" + rest;
  }
}
