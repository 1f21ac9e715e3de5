/** The web service's report on the placements an editor sends: per side,
    each placement counts for the artwork named by its icon, or else its
    number, and the report lists artworks 1..num_arts with their counts. */
module ServerReport {
  import opened Wrappers
  import opened Text
  import opened Placements

  /** The artwork a placement side counts for: `str(icon or num)`, or nothing
      when both are falsy. */
  function SideKey(icon: Field, num: Field): (k: Option<string>)
    ensures k.Some? <==> Truthy(icon) || Truthy(num)
  {
    var a := Or(icon, num);
    if Truthy(a) then Some(FieldText(a)) else None
  }

  /** The icon wins over the number on the same side. */
  lemma SideKeyPrecedence(icon: Field, num: Field)
    ensures Truthy(icon) ==> SideKey(icon, num) == Some(FieldText(icon))
    ensures !Truthy(icon) && Truthy(num) ==> SideKey(icon, num) == Some(FieldText(num))
  {
  }

  /** The marker label and the report disagree when a side has both: the
      label shows the number 2, the report counts the side for artwork 5. */
  lemma LabelAndReportDisagree()
    ensures Label(Num(2), Num(5)) == "2"
    ensures SideKey(Num(5), Num(2)) == Some("5")
  {
    assert IntToDecimal(2) == "2";
    assert IntToDecimal(5) == "5";
  }

  function Key(p: PlacementRecord, side: int): Option<string> {
    if side == 1 then SideKey(p.s1Icon, p.s1Num) else SideKey(p.s2Icon, p.s2Num)
  }

  /** How many placements count for `key` on the given side. */
  function KeyCount(ps: seq<PlacementRecord>, side: int, key: string): (c: nat)
    ensures c <= |ps|
  {
    if ps == [] then 0
    else KeyCount(ps[..|ps| - 1], side, key) + (if Key(ps[|ps| - 1], side) == Some(key) then 1 else 0)
  }

  /** `counts.get(key, 0)`. */
  function Get(m: map<string, nat>, key: string): nat {
    if key in m then m[key] else 0
  }

  /** The counting loop over the placements. Only keys that occur are in
      the dictionaries. */
  method CountAssignments(ps: seq<PlacementRecord>) returns (counts1: map<string, nat>, counts2: map<string, nat>)
    ensures forall key :: Get(counts1, key) == KeyCount(ps, 1, key)
    ensures forall key :: Get(counts2, key) == KeyCount(ps, 2, key)
    ensures forall key :: key in counts1 ==> counts1[key] > 0
    ensures forall key :: key in counts2 ==> counts2[key] > 0
  {
    counts1, counts2 := map[], map[];
    for i := 0 to |ps|
      invariant forall key :: Get(counts1, key) == KeyCount(ps[..i], 1, key)
      invariant forall key :: Get(counts2, key) == KeyCount(ps[..i], 2, key)
      invariant forall key :: key in counts1 ==> counts1[key] > 0
      invariant forall key :: key in counts2 ==> counts2[key] > 0
    {
      assert ps[..i + 1][..i] == ps[..i];
      var p := ps[i];
      var a1 := Key(p, 1);
      if a1.Some? {
        counts1 := counts1[a1.value := Get(counts1, a1.value) + 1];
      }
      var a2 := Key(p, 2);
      if a2.Some? {
        counts2 := counts2[a2.value := Get(counts2, a2.value) + 1];
      }
    }
    assert ps[..|ps|] == ps;
  }

  /** The line for artwork i: total and both sides on a two-way road, the
      side-1 count alone otherwise. */
  function ArtworkLine(mode: Mode, i: int, c1: nat, c2: nat): string {
    if mode == Two then
      "Artwork #" + IntToDecimal(i) + ": " + IntToDecimal(c1 + c2) + " copies (Side 1: "
        + IntToDecimal(c1) + ", Side 2: " + IntToDecimal(c2) + ")"
    else
      "Artwork #" + IntToDecimal(i) + ": " + IntToDecimal(c1) + " copies"
  }

  /** The seven lines before the counts; `generated` is the ISO time stamp. */
  function Header(mode: Mode, usePics: bool, numArts: int, generated: string): (h: seq<string>)
    ensures |h| == 9
    ensures h[0] == "Artwork SEQUENCING REPORT" && h[|h| - 2] == "Artwork Requirements:"
  {
    ["Artwork SEQUENCING REPORT",
     Repeat('=', 50),
     "Generated: " + generated,
     "Road Type: " + (if mode == Two then "Two Way" else "Single Way"),
     "Use Pictures: " + (if usePics then "Yes" else "No"),
     "Unique Artworks: " + IntToDecimal(numArts),
     "",
     "Artwork Requirements:",
     Repeat('-', 50)]
  }

  function ArtworkCount(numArts: int): nat {
    if numArts > 0 then numArts else 0
  }

  /** The line for artwork i with the counts of the placements. */
  function CountLine(mode: Mode, ps: seq<PlacementRecord>, i: int): (l: string)
    ensures '\n' !in l
  {
    var key := IntToDecimal(i);
    ArtworkLineNoNewline(mode, i, KeyCount(ps, 1, key), KeyCount(ps, 2, key));
    ArtworkLine(mode, i, KeyCount(ps, 1, key), KeyCount(ps, 2, key))
  }

  /** One count line per artwork 1..num_arts. */
  function Body(mode: Mode, numArts: int, ps: seq<PlacementRecord>): (b: seq<string>)
    ensures |b| == ArtworkCount(numArts)
  {
    seq(ArtworkCount(numArts), k => CountLine(mode, ps, k + 1))
  }

  lemma BodySnoc(mode: Mode, i: int, ps: seq<PlacementRecord>)
    requires i >= 1
    ensures Body(mode, i, ps) == Body(mode, i - 1, ps) + [CountLine(mode, ps, i)]
  {
  }

  /** The report's lines. */
  function ReportLines(mode: Mode, usePics: bool, numArts: int, ps: seq<PlacementRecord>,
                       generated: string): seq<string>
  {
    Header(mode, usePics, numArts, generated) + Body(mode, numArts, ps)
  }

  /** `generate_report`: header, counting loop, one line per artwork
      1..num_arts, joined with line breaks. */
  method GenerateReport(mode: Mode, usePics: bool, numArts: int, ps: seq<PlacementRecord>,
                        generated: string) returns (report: string)
    ensures report == Join(ReportLines(mode, usePics, numArts, ps, generated), '\n')
  {
    var counts1, counts2 := CountAssignments(ps);
    var body: seq<string> := [];
    var n := ArtworkCount(numArts);
    for i := 1 to n + 1
      invariant body == Body(mode, i - 1, ps)
    {
      var iStr := IntToDecimal(i);
      var line := ArtworkLine(mode, i, Get(counts1, iStr), Get(counts2, iStr));
      assert line == CountLine(mode, ps, i);
      BodySnoc(mode, i, ps);
      body := body + [line];
    }
    assert body == Body(mode, numArts, ps);
    var h := Header(mode, usePics, numArts, generated);
    report := Join(h + body, '\n');
  }

  /** The report has num_arts + 9 lines (9 when num_arts < 1); the counts
      come after "Artwork Requirements:" and a rule of 50 dashes, in artwork
      order. */
  lemma ReportShape(mode: Mode, usePics: bool, numArts: int, ps: seq<PlacementRecord>, generated: string)
    ensures var ls := ReportLines(mode, usePics, numArts, ps, generated);
      && |ls| == 9 + (if numArts > 0 then numArts else 0)
      && ls[7] == "Artwork Requirements:"
      && ls[8] == Repeat('-', 50)
      && forall i :: 1 <= i <= numArts ==> ls[8 + i] == CountLine(mode, ps, i)
  {
    var h := Header(mode, usePics, numArts, generated);
    assert |h| == 9;
  }

  /** Reading the report back line by line gives its lines, provided the
      time stamp holds no line break. */
  lemma ReportRoundTrip(mode: Mode, usePics: bool, numArts: int, ps: seq<PlacementRecord>, generated: string)
    requires '\n' !in generated
    ensures Split(Join(ReportLines(mode, usePics, numArts, ps, generated), '\n'), '\n')
      == ReportLines(mode, usePics, numArts, ps, generated)
  {
    var h := Header(mode, usePics, numArts, generated);
    var b := Body(mode, numArts, ps);
    HeaderNoNewline(mode, usePics, numArts, generated);
    forall k | 0 <= k < |b| ensures '\n' !in b[k] {
      assert b[k] == CountLine(mode, ps, k + 1);
    }
    var ls := h + b;
    assert forall k :: 0 <= k < |ls| ==> ls[k] == if k < 9 then h[k] else b[k - 9];
    SplitJoin(ls, '\n');
  }

  lemma HeaderNoNewline(mode: Mode, usePics: bool, numArts: int, generated: string)
    requires '\n' !in generated
    ensures var h := Header(mode, usePics, numArts, generated);
      |h| == 9 && forall k :: 0 <= k < 9 ==> '\n' !in h[k]
  {
    var h := Header(mode, usePics, numArts, generated);
    forall k | 0 <= k < 9 ensures '\n' !in h[k] {
      if k == 1 || k == 8 {
        assert h[k] == Repeat(if k == 1 then '=' else '-', 50);
      } else if k == 2 {
        assert h[k] == "Generated: " + generated;
        NoNewlineAppend("Generated: ", generated);
      } else if k == 3 {
        var t := if mode == Two then "Two Way" else "Single Way";
        assert h[k] == "Road Type: " + t;
        NoNewlineAppend("Road Type: ", t);
      } else if k == 4 {
        var t := if usePics then "Yes" else "No";
        assert h[k] == "Use Pictures: " + t;
        NoNewlineAppend("Use Pictures: ", t);
      } else if k == 5 {
        assert h[k] == "Unique Artworks: " + IntToDecimal(numArts);
        NoNewlineInDecimal(numArts);
        NoNewlineAppend("Unique Artworks: ", IntToDecimal(numArts));
      } else {
        assert h[k] in {"Artwork SEQUENCING REPORT", "", "Artwork Requirements:"};
      }
    }
  }

  lemma NoNewlineAppend(a: string, b: string)
    requires '\n' !in a && '\n' !in b
    ensures '\n' !in a + b
  {
  }

  /** An artwork line holds no line break, so the report reads back one
      line per artwork. */
  lemma ArtworkLineNoNewline(mode: Mode, i: int, c1: nat, c2: nat)
    ensures '\n' !in ArtworkLine(mode, i, c1, c2)
  {
    NoNewlineInDecimal(i);
    NoNewlineAppend("Artwork #", IntToDecimal(i));
    var head := "Artwork #" + IntToDecimal(i);
    NoNewlineAppend(head, ": ");
    head := head + ": ";
    if mode == Two {
      NoNewlineInDecimal(c1 + c2);
      NoNewlineInDecimal(c1);
      NoNewlineInDecimal(c2);
      var s := head;
      NoNewlineAppend(s, IntToDecimal(c1 + c2));
      s := s + IntToDecimal(c1 + c2);
      NoNewlineAppend(s, " copies (Side 1: ");
      s := s + " copies (Side 1: ";
      NoNewlineAppend(s, IntToDecimal(c1));
      s := s + IntToDecimal(c1);
      NoNewlineAppend(s, ", Side 2: ");
      s := s + ", Side 2: ";
      NoNewlineAppend(s, IntToDecimal(c2));
      s := s + IntToDecimal(c2);
      NoNewlineAppend(s, ")");
    } else {
      NoNewlineInDecimal(c1);
      NoNewlineAppend(head, IntToDecimal(c1));
      NoNewlineAppend(head + IntToDecimal(c1), " copies");
    }
  }

  /** One more placement changes the count of exactly the key each side
      names. */
  lemma KeyCountAppend(ps: seq<PlacementRecord>, p: PlacementRecord, side: int, key: string)
    ensures KeyCount(ps + [p], side, key) == KeyCount(ps, side, key) + (if Key(p, side) == Some(key) then 1 else 0)
  {
    assert (ps + [p])[..|ps|] == ps;
  }

  /** A side whose icon is falsy and whose number is n counts for artwork n
      and for no other artwork. */
  lemma NumberCountsForItsArtwork(ps: seq<PlacementRecord>, p: PlacementRecord, n: int, i: int)
    requires !Truthy(p.s1Icon) && p.s1Num == Num(n) && n != 0
    ensures KeyCount(ps + [p], 1, IntToDecimal(i)) == KeyCount(ps, 1, IntToDecimal(i)) + (if i == n then 1 else 0)
  {
    KeyCountAppend(ps, p, 1, IntToDecimal(i));
    if IntToDecimal(i) == IntToDecimal(n) {
      IntToDecimalInjective(i, n);
    }
  }

  /** A placement whose sides name no artwork 1..num_arts (falsy, an
      out-of-range number, or some other string) is counted but does not
      change the report. */
  lemma OutOfRangeIgnored(mode: Mode, usePics: bool, numArts: int, ps: seq<PlacementRecord>,
                          p: PlacementRecord, generated: string)
    requires forall i :: 1 <= i <= numArts ==> Key(p, 1) != Some(IntToDecimal(i)) && Key(p, 2) != Some(IntToDecimal(i))
    ensures ReportLines(mode, usePics, numArts, ps + [p], generated) == ReportLines(mode, usePics, numArts, ps, generated)
  {
    forall i | 1 <= i <= ArtworkCount(numArts)
      ensures CountLine(mode, ps + [p], i) == CountLine(mode, ps, i)
    {
      KeyCountAppend(ps, p, 1, IntToDecimal(i));
      KeyCountAppend(ps, p, 2, IntToDecimal(i));
    }
    assert Body(mode, numArts, ps + [p]) == Body(mode, numArts, ps);
  }

  /** On a single-way road the side-2 assignments do not show: placements
      that agree on side 1 give the same report. */
  lemma SingleIgnoresSide2(usePics: bool, numArts: int, ps: seq<PlacementRecord>, qs: seq<PlacementRecord>,
                           generated: string)
    requires |ps| == |qs|
    requires forall k :: 0 <= k < |ps| ==> ps[k].s1Icon == qs[k].s1Icon && ps[k].s1Num == qs[k].s1Num
    ensures ReportLines(Single, usePics, numArts, ps, generated) == ReportLines(Single, usePics, numArts, qs, generated)
  {
    forall i | 1 <= i <= ArtworkCount(numArts)
      ensures CountLine(Single, ps, i) == CountLine(Single, qs, i)
    {
      Side1CountsAgree(ps, qs, IntToDecimal(i));
    }
    assert Body(Single, numArts, ps) == Body(Single, numArts, qs);
  }

  lemma {:induction false} Side1CountsAgree(ps: seq<PlacementRecord>, qs: seq<PlacementRecord>, key: string)
    requires |ps| == |qs|
    requires forall k :: 0 <= k < |ps| ==> ps[k].s1Icon == qs[k].s1Icon && ps[k].s1Num == qs[k].s1Num
    ensures KeyCount(ps, 1, key) == KeyCount(qs, 1, key)
  {
    if ps != [] {
      var n := |ps| - 1;
      Side1CountsAgree(ps[..n], qs[..n], key);
    }
  }
}
