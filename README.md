# PostSequencer core in Dafny

PostSequencer helps plan artwork on lamp posts along a road. You click the
posts on a photo of the road. Each post, or each side of a post on a two-way
road, is numbered cyclically 1..N. The tool then reports how many copies of
each artwork are needed. Placements can be edited in a browser page and sent
to a small web service. The service counts them, stores viewer pages and
results in memory, and serves a viewer that shows the road letterboxed with
previews of the artworks.

This project models the sequential logic under the windows, images and HTTP
routes:

- `Coordinates`: the click recorder (`find_coordinate.py`). Left-button
  presses are collected until a key poll returns 'q'. The list is then
  written one `"x, y"` line per coordinate.
- `LabelPosts`: the post labeller (`label_posts.py`). It reads the file
  back, assigns the cyclic labels, and pairs each post's blue label with the
  red label of the mirror-image post. A round trip shows the labeller reads
  exactly the list the recorder wrote.
- `CyclicTally`: the desktop summary table and the saved text report
  (`save_report`, `show_summary`). Counts are proved in closed form, they sum
  to the number of posts, and each row's total is side 1 plus side 2.
- `Placements`: the placement record `{x, y, s1_num, s2_num, s1_icon,
  s2_icon}`, JavaScript/Python truthiness and `or`, and the marker label.
- `Editor`: the browser placement editor embedded in
  `billboard_sequencer.py`. Placements are objects mutated in place. The
  editor covers nearest-placement search, ensure-or-append, selection,
  dragging with its clamp and 2-pixel threshold, the numeric inline editor
  (`parseInt(v) || null`) and the picture picker. Screen geometry is exact
  over `real`.
- `Layout`: box sizes and positions on the final image (the JavaScript
  `boxW`/`half`/`drawBox` and the Python variant), and the integer clipping
  of an icon pasted onto an image.
- `ArtworkImages`: the picture-selection window and the export's choice
  catalogue. The window holds three parallel lists capped at N, a list box,
  a status line, and a Continue button that is enabled exactly at N.
- `ServerReport`: the web service's report. Each side counts for
  `str(icon or num)`, and there is one line per artwork 1..num_arts.
- `Storage`: the service's in-memory stores and their housekeeping.
  Entries older than 30 days are removed. A store over 10000 entries keeps
  its newest 10000, through a stable newest-first sort.
- `Viewer`: the viewer's letterbox transform and the clamp that positions
  the artwork preview.
- `Text`, `DivMod`, `Wrappers`: Python and JavaScript string built-ins
  (`str`, `strip`, `split`, `join`, `int`, `parseInt`, and iteration over the
  lines of a text file with universal newlines, where "\r\n" and a lone "\r"
  end a line and read as "\n"), Euclidean division facts, and
  `Option`/`Result`.

The code is modelled as written, including places where its parts disagree
with each other:

- The desktop renderer truncates the box size (`int(m * 0.015)`). The
  browser rounds it (`Math.round`). At a short side of 1170 pixels they give
  17 and 18 (`Layout.BoxSizesDiffer`), and they never differ by more than
  one (`Layout.BoxSizesAgreeWithinOne`).
- A marker label shows the number before the icon. The service's report
  counts the icon before the number. The same side can therefore show "2"
  and be counted for artwork 5 (`ServerReport.LabelAndReportDisagree`).
- The drag clamp admits `x == natW`, one past the last pixel column
  (`Editor.DragReachesFarEdge`).
- In two-way mode the blue and red boxes touch only when the box width is
  even. With an odd width they overlap by one pixel
  (`Layout.TwoWayBoxesTouch`).
- Numbers typed into the inline editor are not checked against the number
  of artworks (`Editor.NumOrNullOfDecimal`).

## Model

| member | source | states |
|---|---|---|
| Coordinates.LowByte | find_coordinate.py:24 | `key & 0xFF` lies in 0..255 for every key code, negative ones included |
| Coordinates.QuitAt | find_coordinate.py:23-26 | the loop stops at the first poll whose low byte is 'q', and no earlier input is such a poll; no stop means no input is one |
| Coordinates.ClicksCount | find_coordinate.py:7-10 | the recorded list has exactly one entry per left-button press among the events |
| Coordinates.Recorder.constructor | find_coordinate.py:4 | the global list starts empty |
| Coordinates.Recorder.ClickEvent | find_coordinate.py:7-10 | a left-button press appends its (x, y); any other event leaves the list unchanged |
| Coordinates.Recorder.Run | find_coordinate.py:19-26 | the loop quits iff some poll returns 'q'; the list then holds the old list plus the clicks before that poll, in event order |
| Coordinates.QuitAtFirst | find_coordinate.py:23-26 | the first 'q' poll is at q exactly when q is a 'q' poll with none before it |
| Coordinates.RenderAppend | find_coordinate.py:32-33 | writing one more coordinate appends exactly its line to the file |
| Coordinates.WriteCoordinates | find_coordinate.py:31-33 | the writer loop produces the file of all coordinates in list order; an empty list gives an empty file |
| Coordinates.FormatLine | find_coordinate.py:33 | a written line is at least "x, y\n" long and ends with a line break |
| Coordinates.Render | find_coordinate.py:31-33 | the file holds at least five characters per coordinate |
| Coordinates.FormatLineShape | find_coordinate.py:33 | each written line ends in a line break and holds no other |
| Coordinates.FormatLineWithoutReturn | find_coordinate.py:33 | a written line holds no carriage return |
| Coordinates.RenderWithoutReturn | find_coordinate.py:31-33 | the written file holds no carriage return, so reading it with universal newlines leaves it as it is |
| Coordinates.FirstLineOfRender | find_coordinate.py:31-33 | the first line read from a non-empty file is the first coordinate's line, and the rest are the lines of the rest |
| Coordinates.LinesOfRender | find_coordinate.py:31-33 | reading the written file line by line gives one line per coordinate, the k-th the k-th coordinate's line |
| LabelPosts.ParseLine | label_posts.py:8-10 | a line is skipped iff it strips to the empty string |
| LabelPosts.Collect | label_posts.py:5-10 | a success holds at most one coordinate per line; an error names a line that is bad |
| LabelPosts.CollectSpec | label_posts.py:5-10 | on success there is one coordinate per point line and no bad line; on failure the reported line is the first bad one |
| LabelPosts.CollectErrSticky | label_posts.py:9-10 | a bad line stops the read: later lines do not change the error |
| LabelPosts.ReadCoordinates | label_posts.py:4-10 | the reading loop returns exactly what the line-by-line reading of the file, with universal newlines, gives: the points in file order, or the first bad line |
| LabelPosts.StripFormatLine | label_posts.py:8 | stripping a written line removes exactly its line break |
| LabelPosts.SplitFormatLine | label_posts.py:9 | a written line splits on ',' into exactly "x" and " y" |
| LabelPosts.ParseFormatLine | label_posts.py:8-10 | every written line reads back as the coordinate it was written from |
| LabelPosts.CollectAllPoints | label_posts.py:5-10 | lines that all read as points give those points in order |
| LabelPosts.RoundTrip | label_posts.py:5-10 | reading the recorder's file with universal newlines gives back exactly the recorded list, one line per coordinate |
| LabelPosts.ParseTwoParts | label_posts.py:8-10 | a line whose stripped text splits into exactly two parts that `int()` accepts reads as that point |
| LabelPosts.ReturnTextTranslated | label_posts.py:5-6 | "1, 2\r3, 4\n" is read as "1, 2\n3, 4\n" |
| LabelPosts.CarriageReturnEndsLine | label_posts.py:5-10 | a file whose two lines are separated by a lone carriage return reads as the two coordinates (1, 2) and (3, 4) |
| LabelPosts.CyclicLabels | label_posts.py:21-22 | n labels, each in 1..cycle |
| LabelPosts.CyclicLabelsPeriodic | label_posts.py:21-22 | labels repeat with period `cycle`, and the first `cycle` posts get 1, 2, ..., cycle |
| LabelPosts.DrawLabels | label_posts.py:24-31 | the drawing loop issues exactly the two draws per post of the specification, post by post |
| LabelPosts.LabelDrawsLayout | label_posts.py:27-31 | post i owns draws 2i (blue) and 2i+1 (red) |
| LabelPosts.LabelPairing | label_posts.py:18-31 | every post gets a blue and a red label; the red label of post i is the blue label of post n-1-i; blue is 30 pixels left, red 10 pixels right, on the post's baseline |
| CyclicTally.Count | billboard_sequencer.py:565-573 | a count never exceeds the number of labels, and an artwork no post gets counts 0 |
| CyclicTally.CountCyclic | billboard_sequencer.py:564-573 | with L posts and N artworks, artwork n is needed floor(L/N) times, plus once more when n <= L mod N |
| CyclicTally.TallySum | billboard_sequencer.py:564-573 | when every label names an artwork 1..N, the counts add up to the number of labels |
| CyclicTally.CyclicTallySum | billboard_sequencer.py:564-573 | the counts of the cyclic labels of L posts add up to L |
| CyclicTally.SummaryRows | billboard_sequencer.py:469-497 | the summary table has one row per artwork 1..N, zero counts included |
| CyclicTally.SummaryRowsSpec | billboard_sequencer.py:469-497 | row k is artwork k+1 with its closed-form counts; in two-way mode the total is side 1 plus side 2 |
| CyclicTally.SaveReport | billboard_sequencer.py:548-590 | the report is the header followed by one line per artwork 1..N, each the line of that artwork's table row |
| CyclicTally.RequirementLines | billboard_sequencer.py:571-590 | the writing loop produces the row lines of the summary table, in artwork order |
| CyclicTally.ReportHeader | billboard_sequencer.py:556-584 | the header has 10 lines on a single-way road and 12 on a two-way road, from the title to "Artwork Requirements:" and its rule |
| CyclicTally.RowLine | billboard_sequencer.py:571-590 | each artwork line starts with "Artwork #", the artwork number and ": " |
| CyclicTally.ReportShape | billboard_sequencer.py:556-584 | the header has 10 lines on a single-way road and 12 on a two-way road, ending with "Artwork Requirements:" and a rule of 30 or 50 dashes |
| CyclicTally.TenPostsEightArtworks | billboard_sequencer.py:575-590 | with 10 posts per side and 8 artworks, artworks 1 and 2 are needed twice per side and the others once |
| Placements.LabelChoice | billboard_sequencer.py:684 | a marker shows the number when truthy, else the icon when truthy, else nothing |
| Layout.JsBoxSize | billboard_sequencer.py:700 | the browser's box size is at least 16 |
| Layout.PyBoxSize | billboard_sequencer.py:340 | the desktop box size is at least 16 |
| Layout.BoxSizesAgreeWithinOne | billboard_sequencer.py:340 | the truncating and the rounding box sizes differ by at most one pixel |
| Layout.BoxSizesDiffer | billboard_sequencer.py:340 | a 1170-pixel short side gives 17 by truncation and 18 by rounding |
| Layout.DrawBox | billboard_sequencer.py:702 | the box has the requested size and is centred on (cx, cy), to within the rounding of an odd size |
| Layout.PlacementBoxes | billboard_sequencer.py:700 | a placement gets one box on a single-way road and two on a two-way road |
| Layout.FinalBoxes | billboard_sequencer.py:700 | the final image has one box per placement on a single-way road and two on a two-way road |
| Layout.SingleBoxesLayout | billboard_sequencer.py:700 | on a single-way road placement i owns box i |
| Layout.TwoBoxesLayout | billboard_sequencer.py:700 | on a two-way road placement i owns boxes 2i and 2i+1 |
| Layout.FinalBoxesLayout | billboard_sequencer.py:700 | placement i owns box i on a single-way road, and boxes 2i (blue) and 2i+1 (red) on a two-way road |
| Layout.TwoWayBoxesTouch | billboard_sequencer.py:700-702 | the blue box ends where the red one starts iff the box width is even; an odd width overlaps by one pixel |
| Layout.TwoWayPairCentred | billboard_sequencer.py:700-702 | with an even width the pair spans [x - w, x + w) |
| Layout.PyPlacementMarkers | billboard_sequencer.py:342-353 | the desktop renderer hands over one marker per side in use |
| Layout.PyFinalMarkers | billboard_sequencer.py:340-353 | the desktop renderer hands over one marker per placement on a single-way road and two on a two-way road |
| Layout.RenderersAgree | billboard_sequencer.py:340-353 | both renderers draw the same boxes in the same order, with the same colours and labels; centres agree within one pixel and sizes within one |
| Layout.ClipIcon | billboard_sequencer.py:391-412 | when something is drawn, the base region lies inside the image, the icon crop starts inside the icon, and both have the same size |
| Layout.ClipIconCorrect | billboard_sequencer.py:391-412 | nothing is drawn iff the icon misses the image; otherwise the drawn region is exactly the intersection of image and icon, and the icon crop lies inside the icon with the same size |
| Editor.Dist2 | billboard_sequencer.py:678-680 | the on-screen distance measure is never negative |
| Editor.Nearest | billboard_sequencer.py:680 | the scan's result, if any, is an index into the list |
| Editor.NearestSpec | billboard_sequencer.py:680 | nothing is found iff every placement is 12 screen pixels away or more; otherwise the result is the earliest of the closest placements |
| Editor.EnsureThenFind | billboard_sequencer.py:681 | a placement added where nothing was near is the one found at that point |
| Editor.RoundHalfUp | billboard_sequencer.py:686 | `Math.round` gives the integer within half a unit, halves rounded up |
| Editor.ClampTo | billboard_sequencer.py:686 | the clamped coordinate lies in [0, natSize] and equals the input when that already does |
| Editor.DragCoord | billboard_sequencer.py:686 | a dragged coordinate always lies in [0, natSize], and it is the rounded drag target when that is in range |
| Editor.DragCoordZero | billboard_sequencer.py:686 | a pointer back at its start puts the placement back where it started |
| Editor.DragCoordUnitScale | billboard_sequencer.py:686 | at one screen pixel per image pixel, a drag moves the placement by exactly the pointer's displacement, clamped |
| Editor.DragReachesFarEdge | billboard_sequencer.py:686 | the clamp admits natSize itself |
| Editor.Prefill | billboard_sequencer.py:695 | an input box starts empty for a falsy slot and with the number otherwise |
| Editor.NumOrNull | billboard_sequencer.py:695 | Enter stores a non-zero number exactly when `parseInt` finds a non-zero number, and null otherwise |
| Editor.NumOrNullNoDigits | billboard_sequencer.py:695 | empty or non-numeric input stores null |
| Editor.NumOrNullZero | billboard_sequencer.py:695 | "0" stores null |
| Editor.NumOrNullOfDecimal | billboard_sequencer.py:695 | any non-zero decimal integer is stored as that number, with no range check |
| Editor.CommitOfPrefill | billboard_sequencer.py:695 | pressing Enter without typing keeps a number slot, except that a stored 0 becomes null |
| Editor.Placement.constructor | billboard_sequencer.py:681 | a new placement object holds exactly the given record |
| Editor.Editor.constructor | billboard_sequencer.py:672-675 | the page starts from the given placements, with nothing selected, side 1, and no drag |
| Editor.Editor.NearestPlacement | billboard_sequencer.py:680 | the scan returns null iff nothing is found, and otherwise the placement object at the index found |
| Editor.Editor.EnsurePlacement | billboard_sequencer.py:681 | the nearby placement is returned with the list unchanged; otherwise one new unassigned placement at (x, y) is appended and returned |
| Editor.Editor.SelectPlacement | billboard_sequencer.py:682 | the placement becomes active and side 1 is selected |
| Editor.Editor.SelectSide | billboard_sequencer.py:683 | the given side becomes the selected side |
| Editor.Editor.ImageClick | billboard_sequencer.py:697 | the placement at the clicked pixel, found or appended, becomes active with side 1 |
| Editor.Editor.MouseDown | billboard_sequencer.py:686 | a drag of p starts from the pointer and p's position, the moved flag is cleared, and p is selected |
| Editor.Editor.MouseMove | billboard_sequencer.py:686 | during a drag the dragged placement moves to the clamped target of the latest pointer position; its assignments are kept; the moved flag is set once the pointer is more than 2 pixels away, and stays set |
| Editor.Editor.MouseUp | billboard_sequencer.py:686 | the drag ends; the moved flag keeps its value |
| Editor.Editor.OpenInlineEditor | billboard_sequencer.py:694-695 | in numbers mode the overlay opens on p with its number slots as the box texts; in picture mode nothing changes |
| Editor.Editor.HalfClick | billboard_sequencer.py:688-689 | right after a drag a click does nothing; otherwise p and the side are selected and, in numbers mode, the editor opens on p with both number slots as box texts, while in picture mode the editor state is unchanged |
| Editor.Editor.EditInput | billboard_sequencer.py:695 | typing sets one box's text and leaves the other |
| Editor.Editor.PressEnter | billboard_sequencer.py:695 | `s1_num` (and on a two-way road `s2_num`) becomes `parseInt(text) \|\| null`, the overlay closes, and nothing else changes |
| Editor.Editor.PickChoice | billboard_sequencer.py:696 | with no active placement nothing happens; otherwise only the active side's icon becomes the choice's id |
| ArtworkImages.Basename | billboard_sequencer.py:192 | the base name holds no '/' |
| ArtworkImages.BasenameSuffix | billboard_sequencer.py:192 | the base name is the part of the path after its last '/' |
| ArtworkImages.Accepted | billboard_sequencer.py:181-191 | no more pictures are taken than there is room for, or than were picked |
| ArtworkImages.AcceptedCount | billboard_sequencer.py:181-191 | exactly min(room, readable files) pictures are taken |
| ArtworkImages.AcceptedFromPicked | billboard_sequencer.py:184-186 | every picture taken is a readable picked file |
| ArtworkImages.ImageList.constructor | billboard_sequencer.py:127-161 | the window opens with empty lists, "0 / N selected", and Continue disabled |
| ArtworkImages.ImageList.UpdateStatus | billboard_sequencer.py:203-208 | the status shows the count, and Continue is enabled iff the count is N |
| ArtworkImages.ImageList.AddImages | billboard_sequencer.py:172-194 | the readable picked files are appended to all three lists in order, up to N; a full list or an empty pick changes nothing |
| ArtworkImages.ImageList.AddReadable | billboard_sequencer.py:181-193 | the loop appends exactly the accepted pictures and keeps the lists parallel |
| ArtworkImages.ImageList.Consider | billboard_sequencer.py:182-193 | one turn of the loop appends a readable file and skips an unreadable one |
| ArtworkImages.ImageList.Append | billboard_sequencer.py:188-193 | the picture goes to all three lists, and its list-box entry is numbered with the new count |
| ArtworkImages.ImageList.Clear | billboard_sequencer.py:196-201 | all lists are emptied and the status is refreshed |
| ArtworkImages.ImageList.Finish | billboard_sequencer.py:210-215 | sequencing proceeds iff there is exactly one picture per artwork |
| ArtworkImages.AcceptedStep | billboard_sequencer.py:182-186 | while there is room, a readable file is taken and an unreadable one skipped |
| ArtworkImages.BuildChoices | billboard_sequencer.py:614-622 | in picture mode with pictures there is one choice per artwork 1..N, with its icon path and a name taken from its file or "Artwork k"; otherwise none |
| ArtworkImages.IconPathsDistinct | billboard_sequencer.py:617-622 | distinct artworks get distinct icon files |
| ServerReport.SideKey | server.py:235-241 | a side counts iff its icon or its number is truthy |
| ServerReport.SideKeyPrecedence | server.py:235 | a truthy icon wins over the number on the same side |
| ServerReport.LabelAndReportDisagree | server.py:235 | a side with number 2 and icon 5 is labelled "2" but counted for artwork 5 |
| ServerReport.CountAssignments | server.py:233-241 | each side's dictionary gives, for every key, how many placements count for it on that side; only keys that occur are present |
| ServerReport.KeyCount | server.py:233-241 | no key counts more placements than there are |
| ServerReport.Header | server.py:224-244 | nine lines, from the title to "Artwork Requirements:" and its rule |
| ServerReport.CountLine | server.py:245-251 | an artwork line holds no line break |
| ServerReport.ArtworkLineNoNewline | server.py:249-251 | an artwork line holds no line break, whatever the counts |
| ServerReport.HeaderNoNewline | server.py:224-244 | the header lines hold no line break when the time stamp holds none |
| ServerReport.Body | server.py:245-251 | one line per artwork 1..num_arts, none when num_arts < 1 |
| ServerReport.GenerateReport | server.py:216-253 | the report is the header and the count lines, joined with line breaks |
| ServerReport.ReportShape | server.py:224-251 | the report has num_arts + 9 lines; the counts follow "Artwork Requirements:" and 50 dashes, in artwork order |
| ServerReport.ReportRoundTrip | server.py:253 | splitting the report at line breaks gives its lines back |
| ServerReport.KeyCountAppend | server.py:234-241 | one more placement changes the count of exactly the key each side names |
| ServerReport.NumberCountsForItsArtwork | server.py:235-237 | a side with a falsy icon and number n counts for artwork n and no other |
| ServerReport.OutOfRangeIgnored | server.py:245-251 | a placement naming no artwork 1..num_arts does not change the report |
| ServerReport.SingleIgnoresSide2 | server.py:248-251 | on a single-way road, side-2 assignments do not change the report |
| Storage.Unexpired | server.py:643-671 | the entries kept are exactly the unexpired ones, in their order |
| Storage.Expired | server.py:649-650 | only an entry with a time stamp can expire |
| Storage.ExpiredExactly | server.py:644-650 | an entry without a time stamp never expires; one with a time stamp expires iff it is older than now minus 30 days |
| Storage.UnexpiredUnchanged | server.py:646-671 | a store with nothing expired is left exactly as it was |
| Storage.CleanupIdempotent | server.py:640-671 | a second cleanup at the same time changes nothing |
| Storage.UnexpiredDistinct | server.py:646-671 | the cleanup keeps ids distinct |
| Storage.Without | server.py:653-661 | deleting a set of ids keeps exactly the entries whose id is not in it |
| Storage.WithoutMore | server.py:653-661 | deleting ids one at a time equals deleting them all |
| Storage.WithoutExpired | server.py:646-661 | with distinct ids, deleting the collected ids leaves exactly the unexpired entries |
| Storage.ExpiredIdsMatch | server.py:647-651 | an entry's id is collected iff the entry has expired |
| Storage.CollectExpired | server.py:647-651 | the first pass collects exactly the ids of the expired entries |
| Storage.Insert | server.py:685-689 | inserting adds exactly one entry |
| Storage.SortNewestFirst | server.py:685-689 | the sort is a permutation |
| Storage.InsertNewestFirst | server.py:685-689 | inserting into a newest-first list keeps it newest first |
| Storage.SortIsNewestFirst | server.py:685-689 | the sort orders entries newest first, with a missing time stamp last |
| Storage.InsertStable | server.py:685-689 | insertion puts the new entry ahead of the entries with its own time stamp |
| Storage.SortStable | server.py:685-689 | the sort is stable: entries sharing a time stamp keep their order |
| Storage.InsertDistinct | server.py:690-691 | insertion keeps ids distinct when the new id is fresh |
| Storage.SortDistinct | server.py:690-691 | the sort keeps ids distinct |
| Storage.Limit | server.py:683-703 | the trim never leaves more than 10000 entries, nor more than the store had |
| Storage.LimitSpec | server.py:683-703 | the trim keeps min(n, 10000) of the store's own entries, newest first when it trims, and no dropped entry is newer than a kept one |
| Storage.LimitDistinct | server.py:690-691 | the trim keeps ids distinct |
| Storage.Store.constructor | server.py:35-36 | both stores start empty |
| Storage.Store.CleanupOldData | server.py:640-671 | both stores become exactly their unexpired entries, in order |
| Storage.Store.CleanupViewers | server.py:646-661 | the viewer store becomes exactly its unexpired entries |
| Storage.Store.CleanupResults | server.py:663-671 | the result store becomes exactly its unexpired entries |
| Storage.Store.EnforceStorageLimits | server.py:679-703 | each store becomes its trim: unchanged within the limit, otherwise its newest 10000 entries, newest first |
| Viewer.GetDrawInfo | server.py:355-362 | the scale is the largest at which the image fits the element: it fits both ways and fills one |
| Viewer.Px | server.py:365-368 | with a non-negative scale no pixel of the image lands left of the picture |
| Viewer.Py | server.py:370-373 | with a non-negative scale no pixel of the image lands above the picture |
| Viewer.DrawInfoFits | server.py:355-362 | the drawn picture lies inside the element, is centred, fills one dimension, and keeps the aspect ratio |
| Viewer.PxMapsImageOntoPicture | server.py:365-373 | the image's edges map onto the picture's edges, the mapping keeps order, and every image pixel lands inside the picture |
| Viewer.Clamp | server.py:438-439 | the result is at least lo; in [lo, hi] when lo <= hi; the value itself when in range; lo when lo > hi |
| Viewer.PreviewPosition | server.py:419-439 | the preview starts at least a margin from the picture's top-left corner |
| Viewer.PreviewPlacement | server.py:419-439 | the preview is at least a margin from the picture's corner; when it fits it stays inside, against the right edge for a left-half marker and the left edge otherwise, vertically centred |
| Viewer.ShowPreview | server.py:410-444 | a preview is shown iff the icon is truthy and has a non-empty URL, and then at the clamped position |
| Text.NatToDecimal | find_coordinate.py:33 | at least one digit, only digits, no leading zero |
| Text.NatToDecimalValue | find_coordinate.py:33 | the digits written read back as the number |
| Text.IntToDecimal | find_coordinate.py:33 | `str(i)` is digits, with a leading '-' exactly for negative i |
| Text.IntToDecimalInjective | find_coordinate.py:33 | distinct integers have distinct decimal forms |
| Text.PyStripLeft | label_posts.py:8 | removes exactly the leading white space |
| Text.PyStripRight | label_posts.py:8 | removes exactly the trailing white space |
| Text.PyStripLineBreak | label_posts.py:8 | stripping a line whose text has no white space at either end removes exactly its line break |
| Text.PyStripOfDecimal | label_posts.py:8 | leading white space before a decimal integer is stripped away |
| Text.Split | label_posts.py:9 | at least one part, and no part holds the separator |
| Text.SplitWithoutSeparator | label_posts.py:9 | a string without the separator splits into itself |
| Text.SplitAtFirst | label_posts.py:9 | splitting at the first separator gives the text before it, then the split of the rest |
| Text.SplitJoin | server.py:253 | splitting a join gives back the parts when none holds the separator |
| Text.Universal | label_posts.py:5-6 | the newline-translated text holds no carriage return |
| Text.UniversalWithoutReturn | label_posts.py:5-6 | text without a carriage return is read as it is |
| Text.UniversalLoneReturn | label_posts.py:5-6 | a carriage return not followed by a line break is read as one |
| Text.FileLines | label_posts.py:5-6 | the lines a text file yields are never empty and hold no carriage return |
| Text.Lines | label_posts.py:6 | the lines of a newline-translated text are never empty |
| Text.LinesWithoutReturn | label_posts.py:6 | splitting text without a carriage return gives lines without one |
| Text.LinesAtFirstNewline | label_posts.py:6 | the first line runs up to and including the first line break |
| Text.DropUnderscores | label_posts.py:10 | removing `_` from digits and underscores leaves digits only |
| Text.PyInt | label_posts.py:10 | `int()` of blank text raises, and a negative result needs a leading '-' |
| Text.PyIntOfDecimal | label_posts.py:10 | `int()` reads back every integer `str()` writes, also after leading white space |
| Text.JsTrimStart | billboard_sequencer.py:695 | `parseInt` skips exactly the leading JavaScript white space |
| Text.DigitPrefix | billboard_sequencer.py:695 | the digit prefix is the longest prefix made of digits |
| Text.JsParseInt | billboard_sequencer.py:695 | `parseInt` of blank text is NaN, and a negative result needs a leading '-' |
| Text.JsParseIntOfDecimal | billboard_sequencer.py:695 | `parseInt` reads back every integer `String()` writes |
| Text.JsParseIntNoDigits | billboard_sequencer.py:695 | a string without digits parses to NaN |

## Left out

- Windows and dialogs are not modelled: Tk/ttk windows, message boxes, file dialogs, the list-box widget and `webbrowser`. Their state appears only as the values the model keeps, such as the list-box lines and the status text.
- OpenCV pixel work is not modelled: image reading and writing, `putText`/`circle`/`rectangle` pixels, icon resizing and alpha blending. Only the draws issued and the clip indices are modelled.
- The desktop `click_event`/`run_sequencing` is not modelled. It maps with float `round(x / scale)` and calls helpers that are not in the file. The box drawer `_draw_box_with_label` is not in the file either, so only marker centres, sizes and labels are modelled.
- The DOM is not modelled: hover preview, redraw, overlay screen positioning against `window.innerWidth`, the focus timers, and the float mapping of an image click. `Editor.Editor.ImageClick` takes the clicked image pixel as its input.
- FastAPI routes, HTML templates, JSON encoding, file writes and deletes, and the periodic asyncio task are I/O and are not modelled. The viewer file deletion in the cleanup loop is dropped.
- The current time is a parameter. `Generated:` time stamps are string parameters.
- `created_at` is an integer number of seconds. This assumes the stored ISO strings compare in the same order as the times they name. An unparsable time stamp, which raises inside the cleanup's `try`, is not modelled.
- Floating point is not modelled. Screen geometry is exact `real`, the factor 0.015 is the exact ratio 3/200, and `Math.hypot(d) < 12` is the squared distance `< 144`.
- JavaScript `parseInt` is modelled for decimal input only: no "0x" prefix. Digits are ASCII only, and Python's `int()` accepts no non-ASCII digits in this model.
- Editor.Editor.MouseMove: one drag listener at a time. A second mouse-down before the mouse-up, which in the browser would leave two listeners active, is not modelled.
- CyclicTally.SummaryRows: requires N >= 1, which the set-up screens enforce before any tally (billboard_sequencer.py:113, 223).
- LabelPosts.CyclicLabels: requires cycle >= 1. The labeller always passes 8.
- Viewer.ShowPreview: returns the position instead of setting the image source and style, and the 10 ms timer is not modelled.
- Viewer.DrawInfoFits: assumes positive natural image sizes. An image that has not loaded (size 0) divides by zero in the browser.
- The icon file copy in the export, including its `i % len` fallback image, is file I/O and is not modelled. The choice list it builds is.
- `hoverPreview` in the editor is not modelled: it only sets an image source.
- Editor.Display.Valid: requires an element of positive width and height. With a zero-sized element the browser maps every point to 0, `nearestPlacement` returns the first placement, and a drag computes NaN; none of this is modelled.
- ArtworkImages.Basename: splits at '/' only, as `os.path.basename` does on POSIX. On Windows it also splits at `\` and after a drive letter.
- Console and log output is not modelled: the click and prompt messages (find_coordinate.py:9, 21, 35), the labeller's prompt (label_posts.py:39), and the cleanup and trim log lines (server.py:659, 676, 695).
- Text.FileLines: the file is read as already decoded text; encodings are not modelled.
