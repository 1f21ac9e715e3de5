/** The desktop tool's artwork pictures: the user adds image files until
    there is one per artwork, the Continue button is enabled exactly when
    the count is reached, and the editor export lists one choice per artwork
    1..N. Opening a file dialog and reading an image are inputs: each picked
    path comes with the image read from it, or nothing when it could not be
    read. */
module ArtworkImages {
  import opened Wrappers
  import opened Text
  import opened Placements

  /** A decoded picture; its pixels are not modelled. */
  datatype Image = Image(width: nat, height: nat)

  /** `os.path.basename`: what follows the last '/'. */
  function Basename(p: string): (b: string)
    ensures '/' !in b && |b| <= |p|
  {
    if p == [] || p[|p| - 1] == '/' then []
    else Basename(p[..|p| - 1]) + [p[|p| - 1]]
  }

  /** The base name is the part of the path after its last '/', or the
      whole path when it has none. */
  lemma {:induction false} BasenameSuffix(p: string)
    ensures var b := Basename(p);
      && b == p[|p| - |b|..]
      && (|b| < |p| ==> p[|p| - |b| - 1] == '/')
  {
    if p != [] && p[|p| - 1] != '/' {
      BasenameSuffix(p[..|p| - 1]);
    }
  }

  /** The list box entry for the k-th picture. */
  function ListLine(k: int, path: string): string {
    "Artwork #" + IntToDecimal(k) + ": " + Basename(path)
  }

  /** The status line. */
  function Status(count: int, n: int): string {
    IntToDecimal(count) + " / " + IntToDecimal(n) + " selected"
  }

  /** The readable pictures among the picked files that fit in `room` more
      places, in the order picked. */
  function Accepted(picked: seq<(string, Option<Image>)>, room: int): (r: seq<(string, Image)>)
    ensures |r| <= (if room > 0 then room else 0)
    ensures |r| <= |picked|
  {
    if picked == [] || room <= 0 then []
    else if picked[0].1.None? then Accepted(picked[1..], room)
    else [(picked[0].0, picked[0].1.value)] + Accepted(picked[1..], room - 1)
  }

  function Readable(picked: seq<(string, Option<Image>)>): nat {
    if picked == [] then 0 else (if picked[0].1.Some? then 1 else 0) + Readable(picked[1..])
  }

  /** Every readable file is taken while there is room: exactly
      min(room, readable) pictures are accepted. */
  lemma {:induction false} AcceptedCount(picked: seq<(string, Option<Image>)>, room: int)
    requires room >= 0
    ensures |Accepted(picked, room)| == if Readable(picked) <= room then Readable(picked) else room
  {
    if picked != [] && room > 0 {
      if picked[0].1.None? {
        AcceptedCount(picked[1..], room);
      } else {
        AcceptedCount(picked[1..], room - 1);
      }
    }
  }

  /** Accepted pictures come from the picked files, unreadable ones never. */
  lemma {:induction false} AcceptedFromPicked(picked: seq<(string, Option<Image>)>, room: int)
    ensures forall a :: a in Accepted(picked, room) ==> (a.0, Some(a.1)) in picked
  {
    if picked != [] && room > 0 {
      AcceptedFromPicked(picked[1..], room - (if picked[0].1.None? then 0 else 1));
      forall a | a in Accepted(picked, room) ensures (a.0, Some(a.1)) in picked {
        if a !in Accepted(picked[1..], room - (if picked[0].1.None? then 0 else 1)) {
          assert picked[0] == (a.0, Some(a.1));
        } else {
          assert (a.0, Some(a.1)) in picked[1..];
        }
      }
    }
  }

  /** The picture-selection window's state: three parallel lists, the list
      box, the status line and the Continue button. */
  class ImageList {
    const numArtworks: int
    var icons: seq<Image>
    var iconsFull: seq<Image>
    var paths: seq<string>
    var listbox: seq<string>
    var status: string
    var continueEnabled: bool

    /** The lists stay parallel, never hold more than N pictures, and the
        k-th list box entry names the k-th path. */
    predicate Valid()
      reads this
    {
      && |icons| == |iconsFull| == |paths| == |listbox|
      && (|icons| == 0 || |icons| <= numArtworks)
      && forall k :: 0 <= k < |listbox| ==> listbox[k] == ListLine(k + 1, paths[k])
    }

    /** The selection window opens with empty lists, "0 / N selected" and
        the Continue button disabled. */
    constructor (n: int)
      ensures Valid() && numArtworks == n
      ensures icons == [] && iconsFull == [] && paths == [] && listbox == []
      ensures status == Status(0, n) && !continueEnabled
    {
      numArtworks := n;
      icons, iconsFull, paths, listbox := [], [], [], [];
      status := Status(0, n);
      continueEnabled := false;
    }

    /** `_update_images_status`. */
    method UpdateStatus()
      modifies this`status, this`continueEnabled
      ensures status == Status(|icons|, numArtworks)
      ensures continueEnabled <==> |icons| == numArtworks
    {
      status := Status(|icons|, numArtworks);
      continueEnabled := |icons| == numArtworks;
    }

    /** `_on_add_artwork_images`: nothing happens when the list is already
        full or no file was picked; otherwise the readable files are
        appended in order until the list holds N pictures, and the status is
        refreshed. */
    method AddImages(picked: seq<(string, Option<Image>)>)
      requires Valid()
      modifies this
      ensures Valid()
      ensures var added := Accepted(picked, numArtworks - old(|icons|));
        && paths == old(paths) + PathsOf(added)
        && icons == old(icons) + ImagesOf(added)
        && iconsFull == old(iconsFull) + ImagesOf(added)
      ensures old(|icons|) >= numArtworks || picked == [] ==>
        status == old(status) && continueEnabled == old(continueEnabled)
      ensures old(|icons|) < numArtworks && picked != [] ==>
        status == Status(|icons|, numArtworks) && (continueEnabled <==> |icons| == numArtworks)
    {
      if |icons| >= numArtworks || picked == [] {
        assert Accepted(picked, numArtworks - |icons|) == [];
        return;
      }
      AddReadable(picked);
      UpdateStatus();
    }

    /** The loop over the picked files, with room for at least one more
        picture: stops when the list is full. */
    method AddReadable(picked: seq<(string, Option<Image>)>)
      requires Valid() && |icons| < numArtworks
      modifies this`icons, this`iconsFull, this`paths, this`listbox
      ensures Valid()
      ensures var added := Accepted(picked, numArtworks - old(|icons|));
        && paths == old(paths) + PathsOf(added)
        && icons == old(icons) + ImagesOf(added)
        && iconsFull == old(iconsFull) + ImagesOf(added)
    {
      ghost var p0, i0, f0 := paths, icons, iconsFull;
      ghost var room := numArtworks - |icons|;
      ghost var added: seq<(string, Image)> := [];
      assert Extends(p0, i0, f0, added);
      var i := 0;
      while i < |picked| && |icons| < numArtworks
        invariant 0 <= i <= |picked|
        invariant Valid() && |icons| <= numArtworks
        invariant Extends(p0, i0, f0, added)
        invariant Accepted(picked, room) == added + Accepted(picked[i..], numArtworks - |icons|)
      {
        added := Consider(picked, i, p0, i0, f0, room, added);
        i := i + 1;
      }
      AcceptedDone(picked, i, numArtworks - |icons|);
    }

    /** One turn of the loop: a readable file is appended, an unreadable
        one skipped. */
    method Consider(picked: seq<(string, Option<Image>)>, i: nat, ghost p0: seq<string>, ghost i0: seq<Image>,
                    ghost f0: seq<Image>, ghost room: int, ghost added: seq<(string, Image)>)
      returns (ghost added': seq<(string, Image)>)
      requires Valid() && |icons| < numArtworks && i < |picked|
      requires Extends(p0, i0, f0, added)
      requires Accepted(picked, room) == added + Accepted(picked[i..], numArtworks - |icons|)
      modifies this`icons, this`iconsFull, this`paths, this`listbox
      ensures Valid() && |icons| <= numArtworks
      ensures Extends(p0, i0, f0, added')
      ensures Accepted(picked, room) == added' + Accepted(picked[i + 1..], numArtworks - |icons|)
    {
      var path, icon := picked[i].0, picked[i].1;
      AcceptedStep(picked, i, numArtworks - |icons|);
      added' := added;
      if icon.Some? {
        Append(path, icon.value, p0, i0, f0, added);
        added' := added + [(path, icon.value)];
      }
    }

    /** The lists are the earlier ones with the pictures `added` appended. */
    ghost predicate Extends(p0: seq<string>, i0: seq<Image>, f0: seq<Image>, added: seq<(string, Image)>)
      reads this
    {
      paths == p0 + PathsOf(added) && icons == i0 + ImagesOf(added) && iconsFull == f0 + ImagesOf(added)
    }

    /** The loop body for a readable file: the picture goes to all three
        lists and its list box entry is numbered by the new count. */
    method Append(path: string, icon: Image, ghost p0: seq<string>, ghost i0: seq<Image>, ghost f0: seq<Image>,
                  ghost added: seq<(string, Image)>)
      requires Valid() && |icons| < numArtworks
      requires Extends(p0, i0, f0, added)
      modifies this`icons, this`iconsFull, this`paths, this`listbox
      ensures Valid() && |icons| == old(|icons|) + 1
      ensures Extends(p0, i0, f0, added + [(path, icon)])
      ensures listbox == old(listbox) + [ListLine(|icons|, path)]
    {
      PathsOfSnoc(added, (path, icon));
      iconsFull := iconsFull + [icon];
      paths := paths + [path];
      icons := icons + [icon];
      listbox := listbox + [ListLine(|icons|, path)];
    }

    /** `_on_clear_artwork_images`. */
    method Clear()
      modifies this
      ensures Valid()
      ensures icons == [] && iconsFull == [] && paths == [] && listbox == []
      ensures status == Status(0, numArtworks) && (continueEnabled <==> numArtworks == 0)
    {
      icons, iconsFull, paths := [], [], [];
      listbox := [];
      UpdateStatus();
    }

    /** `_on_finish_artwork_images`: sequencing starts only with exactly one
        picture per artwork. */
    method Finish() returns (proceed: bool)
      ensures proceed <==> |icons| == numArtworks
    {
      proceed := |icons| == numArtworks;
    }
  }

  function PathsOf(a: seq<(string, Image)>): (r: seq<string>)
    ensures |r| == |a|
  {
    seq(|a|, k requires 0 <= k < |a| => a[k].0)
  }

  function ImagesOf(a: seq<(string, Image)>): (r: seq<Image>)
    ensures |r| == |a|
  {
    seq(|a|, k requires 0 <= k < |a| => a[k].1)
  }

  lemma PathsOfSnoc(a: seq<(string, Image)>, x: (string, Image))
    ensures PathsOf(a + [x]) == PathsOf(a) + [x.0]
    ensures ImagesOf(a + [x]) == ImagesOf(a) + [x.1]
  {
  }

  /** One step of the add loop: the readable file at i is accepted while
      there is room, an unreadable one is skipped. */
  lemma AcceptedStep(picked: seq<(string, Option<Image>)>, i: nat, left: int)
    requires i < |picked| && left > 0
    ensures var more := if picked[i].1.Some? then [(picked[i].0, picked[i].1.value)] else [];
      Accepted(picked[i..], left) == more + Accepted(picked[i + 1..], left - |more|)
  {
    assert picked[i..][1..] == picked[i + 1..];
  }

  /** When the loop stops, nothing more is accepted: the files ran out or
      the list is full. */
  lemma AcceptedDone(picked: seq<(string, Option<Image>)>, i: nat, left: int)
    requires i <= |picked| && (i == |picked| || left <= 0)
    ensures Accepted(picked[i..], left) == []
  {
  }

  // ------------------------------------------------------------- choices

  /** The icon file exported for artwork k. */
  function IconPath(k: int): string {
    "assets/icons/icon_" + IntToDecimal(k) + ".png"
  }

  /** The name of the choice at index i. */
  function ChoiceName(i: int, paths: seq<string>): string {
    if 0 <= i < |paths| then Basename(paths[i]) else "Artwork " + IntToDecimal(i + 1)
  }

  /** The export's choice list: in picture mode with at least one picture,
      one choice per artwork 1..N, named after its picture's file, or
      "Artwork k" past the end of the list of paths; empty otherwise. */
  method BuildChoices(useImages: bool, n: int, iconsFull: seq<Image>, paths: seq<string>)
    returns (choices: seq<Choice>)
    ensures useImages && iconsFull != [] ==> |choices| == (if n > 0 then n else 0)
    ensures !(useImages && iconsFull != []) ==> choices == []
    ensures forall i :: 0 <= i < |choices| ==> choices[i] == Choice(i + 1, IconPath(i + 1), ChoiceName(i, paths))
  {
    choices := [];
    if useImages && iconsFull != [] {
      var i := 0;
      while i < n
        invariant 0 <= i <= (if n > 0 then n else 0) && |choices| == i
        invariant forall k :: 0 <= k < i ==> choices[k] == Choice(k + 1, IconPath(k + 1), ChoiceName(k, paths))
      {
        var name := ChoiceName(i, paths);
        choices := choices + [Choice(i + 1, IconPath(i + 1), name)];
        i := i + 1;
      }
    }
  }

  /** Distinct artworks get distinct icon files. */
  lemma IconPathsDistinct(a: int, b: int)
    requires IconPath(a) == IconPath(b)
    ensures a == b
  {
    var da, db := IntToDecimal(a), IntToDecimal(b);
    var pre := "assets/icons/icon_";
    assert IconPath(a) == pre + da + ".png";
    assert IconPath(b) == pre + db + ".png";
    assert |da| == |db|;
    assert da == IconPath(a)[|pre|..|pre| + |da|];
    assert db == IconPath(b)[|pre|..|pre| + |db|];
    IntToDecimalInjective(a, b);
  }
}
