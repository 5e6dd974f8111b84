# Track App landing site: geometry, session notes and FAQ navigation in Dafny

This project models the parts of the Track App landing site that contain logic.

- **Track geometry** (`lib/geo-utils.ts`). It projects GeoJSON longitude/latitude
  pairs into the 400 by 240 SVG box of the track map. It builds the cumulative
  distance table of a polyline. `pointForPos` finds the point at a fraction of
  the lap. `nearestPointOnPolyline` finds the point of the track nearest to a
  click and its lap fraction.
- **Session review page** (`app/session/page.tsx`). The page keeps a list of
  coaching notes on a lap video:
  - a composer edits a draft note;
  - saving turns the draft into an annotation, with a trimmed text and the
    comma-separated tags parsed, and keeps the list ordered by video time;
  - notes can be deleted;
  - the timeline and the track map seek the video;
  - the `O`, `A` and `N` keys toggle the overlay, toggle annotate mode and add
    a note at the playhead;
  - `formatTime` renders seconds as `m:ss`.
- **FAQ accordion** (`app/chin/page.tsx`). Enter and Space open or close an
  answer. At most one answer is open at a time. The arrow keys move the focus
  to the next or previous question, wrapping around the five questions.

Modules and their files:

| file | module | contents |
|---|---|---|
| `wrappers.dfy` | `Wrappers` | `Option` |
| `numeric.dfy` | `Numeric` | `Math.min`, `Math.max`, the clamp to [0, 1], two bounds on quotients and products |
| `geo_utils.dfy` | `GeoUtils` | projection, GeoJSON reading and bounds, cumulative distances, `pointForPos`, `nearestPointOnPolyline` |
| `session_text.dfy` | `SessionText` | decimal digits, `formatTime`, `String.prototype.trim`, `split(",")`, the tag list |
| `session_notes.dfy` | `SessionNotes` | annotations and drafts, building a note from a draft, the stable sort by time, removal by id |
| `session_page.dfy` | `SessionPage` | the page's state as the class `SessionReview` with one method per handler |
| `chin_faq.dfy` | `ChinFaq` | `toggle`, the arrow-key index arithmetic, the accordion as the class `FaqAccordion` |

Modelling choices:

- **Numbers.** JavaScript numbers are modelled as mathematical reals.
- **Segment length.** The Euclidean segment length (`Math.sqrt(dx*dx + dy*dy)`)
  is a function parameter `len`. What the proofs assume of it is
  `IsSegmentLength`: it is never negative, and it is zero exactly when the two
  points are equal.
- **Loops.** Each loop of `lib/geo-utils.ts` is a method, proved against a
  function or predicate that specifies it:
  - `CumulativeDistances` against `Cumulative`;
  - `PointForPos` against `PointAt`;
  - `ComputeBounds` against `BoundsOf`;
  - `NearestPointOnPolyline` against `IsNearestSegment`: the first segment
    whose candidate point is closest.
- **Array methods.** The session page's `split`, `map`, `filter` and `sort`
  calls build new arrays without updating anything in place. They are
  recursive functions on sequences: `Split`, `TrimEach`, `DropEmpty`,
  `SortByTime` and `RemoveId`.
- **Handlers.** The React state of the session page is the class
  `SessionReview`, one field per `useState`. Each handler is a method whose
  postcondition gives the whole new state through `State()`. Values a handler
  reads from the DOM are parameters:
  - whether the video and timeline elements are mounted;
  - the click fraction;
  - the object URL of the chosen file;
  - whether the key event came from an `INPUT` or `TEXTAREA` element.
- **Note id and timestamp.** The new note's id and its creation timestamp are
  parameters as well.

## Model

| member | source | states |
|---|---|---|
| Numeric.Min | lib/geo-utils.ts:85-87 | `Math.min`: at most both arguments and equal to one of them |
| Numeric.Max | lib/geo-utils.ts:86-88 | `Math.max`: at least both arguments and equal to one of them |
| Numeric.Clamp01 | lib/geo-utils.ts:146 | `Math.max(0, Math.min(1, x))` lies in [0, 1], is x inside it, 0 below it and 1 above it |
| GeoUtils.ProjectLatLonToSvg | lib/geo-utils.ts:32-53 | with room in the padded box, the longitude is read back from x and the latitude from y: the projection loses nothing |
| GeoUtils.ProjectInPaddedBox | lib/geo-utils.ts:32-53 | with positive spans, a coordinate inside the bounds lands inside the box shrunk by `width * padding` on every side |
| GeoUtils.ProjectCorners | lib/geo-utils.ts:38-52 | the north-west corner (maxLat, minLon) maps to (p, p) and the south-east corner (minLat, maxLon) to (width - p, height - p) |
| GeoUtils.ProjectOrientation | lib/geo-utils.ts:48-50 | x grows with longitude and y shrinks as latitude grows: the Y axis is flipped |
| GeoUtils.TrackCoordinates | lib/geo-utils.ts:63-74 | the builder goes on only with a first feature that is a LineString with a non-empty coordinate list |
| GeoUtils.BoundsOf | lib/geo-utils.ts:77-89 | the bounds folded over the coordinates are ordered: minimum latitude and longitude at most the maxima |
| GeoUtils.BoundsOfIsTight | lib/geo-utils.ts:77-89 | the bounds contain every coordinate and each bound is attained by some coordinate |
| GeoUtils.ComputeBounds | lib/geo-utils.ts:77-89 | the `forEach` over the coordinates computes exactly those tight bounds |
| GeoUtils.BuildPolylineFromGeoJson | lib/geo-utils.ts:60-108 | returns `[]` exactly on a rejected document; otherwise one projected point per coordinate, in order, read as `[lon, lat]`, all inside the padded 400 by 240 box |
| GeoUtils.Cumulative | lib/geo-utils.ts:115-128 | the table has `max(1, n)` entries and starts at 0 |
| GeoUtils.CumulativeStep | lib/geo-utils.ts:119-125 | each entry is the previous one plus the length of the segment ending there |
| GeoUtils.CumulativeMonotone | lib/geo-utils.ts:119-125 | the table never decreases |
| GeoUtils.CumulativeDistances | lib/geo-utils.ts:115-128 | the loop builds exactly the table |
| GeoUtils.FirstReaching | lib/geo-utils.ts:156-157 | the scan stops at the first entry reaching the target: all entries before it fall short |
| GeoUtils.PointAt | lib/geo-utils.ts:136-178 | the fallback centre for an empty polyline and the only point of a one-point polyline; the lemmas below state the rest |
| GeoUtils.PointForPos | lib/geo-utils.ts:136-178 | the fallback centre for no points, the only point for one point, otherwise a point on the polyline |
| GeoUtils.TargetDistanceWithin | lib/geo-utils.ts:146-153 | the target distance lies between 0 and the total, at 0 for position 0 and the total for position 1 |
| GeoUtils.SegmentFractionWithin | lib/geo-utils.ts:159-167 | inside a reached segment the interpolation fraction lies in [0, 1] and is 1 at the segment's end |
| GeoUtils.PointAtOnSegment | lib/geo-utils.ts:155-177 | for two or more points the scan always finds a segment, so the answer lies on the polyline |
| GeoUtils.PointAtClamps | lib/geo-utils.ts:145-146 | positions below 0 answer like 0, positions above 1 answer like 1 |
| GeoUtils.PointAtStart | lib/geo-utils.ts:156-165 | position 0 answers the first point |
| GeoUtils.PointAtEnd | lib/geo-utils.ts:156-177 | position 1 answers the last point |
| GeoUtils.SquareHalfway | lib/geo-utils.ts:146-172 | on the open square (0,0), (10,0), (10,10), (0,10) of length 30, position 0.5 answers (10, 5) |
| GeoUtils.SegmentParam | lib/geo-utils.ts:213-235 | the click's projection parameter is clamped into [0, 1] |
| GeoUtils.CandidateOnSegment | lib/geo-utils.ts:215-246 | each segment's candidate is the point at that parameter and lies on the polyline |
| GeoUtils.SegmentPointOfEqualEnds | lib/geo-utils.ts:215-222 | on a zero-length segment every interpolated point is its start, as the degenerate branch answers |
| GeoUtils.NearestSegmentUnique | lib/geo-utils.ts:244-246 | with the strict `dist < minDist`, the winning segment is uniquely determined |
| GeoUtils.NearestPointOnPolyline | lib/geo-utils.ts:186-259 | position 0 and the fallback centre or the only point for short polylines; otherwise the candidate of the first closest segment and its clamped position along the track, in [0, 1] |
| GeoUtils.PartOfWithin | lib/geo-utils.ts:249-250 | a fraction in [0, 1] of a segment is no longer than the segment, and dividing by a positive length recovers the fraction |
| GeoUtils.ArcLengthWithin | lib/geo-utils.ts:248-251 | the distance along the track to a point of segment k lies between the table entries of its ends, within [0, total] |
| GeoUtils.ArcLengthFraction | lib/geo-utils.ts:161-167 | measuring that distance back inside the segment recovers the fraction |
| GeoUtils.ArcLengthAtStart | lib/geo-utils.ts:163-165 | equal table entries mean equal points, so reaching a segment at its start means being at its first point |
| GeoUtils.TargetDistanceOfFraction | lib/geo-utils.ts:146-153 | a distance divided by the total and scaled back gives the distance |
| GeoUtils.PointAtArcLength | lib/geo-utils.ts:153-172 | the point at the position of a distance along segment k is the point of segment k at that distance |
| GeoUtils.SameArcLengthSamePoint | lib/geo-utils.ts:119-125 | two points with the same table entry are equal, since only zero-length segments add nothing |
| GeoUtils.PointForNearestPosition | lib/geo-utils.ts:248-256 | the position reported for a click lies in [0, 1] and `pointForPos` of it is the reported point |
| SessionText.DigitChar | app/session/page.tsx:57 | the character of a digit is a decimal digit whose value is the digit |
| SessionText.NatToDecimal | app/session/page.tsx:55-57 | `toString` of a natural number: digits, no leading zero, reading back as the number, one digit exactly below 10 |
| SessionText.DecimalValueInjective | app/session/page.tsx:57 | two digit strings without leading zeros that read the same are equal |
| SessionText.LeadingDigitPositive | app/session/page.tsx:57 | a digit string with a non-zero leading digit reads as a positive number |
| SessionText.PadStartZero | app/session/page.tsx:57 | `padStart(w, "0")`: at least w long, the original at the end, zeros before it |
| SessionText.LeadingZerosValue | app/session/page.tsx:57 | padding with zeros does not change the value read |
| SessionText.AllZerosValue | app/session/page.tsx:57 | a string of zeros reads as 0 |
| SessionText.PaddedSeconds | app/session/page.tsx:56-57 | seconds below 60 padded to two places are two digits reading as the seconds |
| SessionText.ClockTextReads | app/session/page.tsx:54-57 | minutes, a colon and the padded seconds read as `60 * minutes + seconds` |
| SessionText.FormatTime | app/session/page.tsx:52-58 | "0:00" for negative times; otherwise `minutes:ss` that reads as the whole seconds, with two digits below 60 |
| SessionText.FormatTimeSameLabel | app/session/page.tsx:52-58 | two non-negative times get the same label exactly when they have the same whole seconds |
| SessionText.ClockSecondsDetermined | app/session/page.tsx:55-57 | a label reads as one number of seconds only |
| SessionText.ClockLabelUnique | app/session/page.tsx:55-57 | a number of seconds has only one label |
| SessionText.TwoDigitsInjective | app/session/page.tsx:57 | two-digit strings that read the same are equal |
| SessionText.Trim | app/session/page.tsx:289 | `trim()` is no longer than its input and has no whitespace at either end |
| SessionText.TrimStartSpec | app/session/page.tsx:289 | the leading part removed is whitespace and what is left does not start with whitespace |
| SessionText.TrimEndSpec | app/session/page.tsx:289 | the trailing part removed is whitespace and what is left does not end with whitespace |
| SessionText.TrimSpec | app/session/page.tsx:289 | `trim()` has no whitespace at either end and sits between a whitespace prefix and a whitespace suffix of the original |
| SessionText.TrimTrimmed | app/session/page.tsx:299 | a string without whitespace at its ends is its own trim |
| SessionText.TrimIdempotent | app/session/page.tsx:299 | trimming twice is trimming once |
| SessionText.Split | app/session/page.tsx:288 | `split(",")` has at least one piece and no piece holds a comma |
| SessionText.JoinSplit | app/session/page.tsx:288 | joining the pieces with commas gives the field back |
| SessionText.SplitAtComma | app/session/page.tsx:288 | the pieces of `a,b` are the pieces of a followed by those of b |
| SessionText.SplitCommaFree | app/session/page.tsx:288 | a string without commas is one piece |
| SessionText.SplitJoin | app/session/page.tsx:288 | splitting comma-free pieces joined with commas gives the pieces back |
| SessionText.DropEmpty | app/session/page.tsx:290 | `filter(Boolean)` keeps no empty string and no more strings than it got |
| SessionText.DropEmptyConcat | app/session/page.tsx:290 | filtering works piece by piece, keeping the order |
| SessionText.TrimEachSpec | app/session/page.tsx:289 | `map(trim)` keeps the length and trims each piece in place |
| SessionText.TrimEachConcat | app/session/page.tsx:289 | the map works piece by piece, keeping the order |
| SessionText.TrimEachClean | app/session/page.tsx:288-289 | trimmed comma-free pieces are trimmed and comma-free |
| SessionText.DropEmptyClean | app/session/page.tsx:289-290 | dropping the empty ones among those leaves clean tags |
| SessionText.TrimKeepsCommaFree | app/session/page.tsx:289 | trimming never brings in a comma |
| SessionText.ParseTags | app/session/page.tsx:287-290 | the tag list has at most one tag per comma-separated piece of the field |
| SessionText.ParseTagsClean | app/session/page.tsx:287-290 | every parsed tag is non-empty, trimmed and comma-free |
| SessionText.ParseTagsAtComma | app/session/page.tsx:287-290 | the tags of `a,b` are the tags of a followed by those of b |
| SessionText.ParseTagsJoin | app/session/page.tsx:287-290 | clean tags joined with commas parse back as the same list |
| SessionText.SingleTag | app/session/page.tsx:287-290 | a clean tag alone in the field parses as itself |
| SessionNotes.NewDraft | app/session/page.tsx:263-271 | a fresh draft has the given time and position, type "Coach note", severity info, no tags, no text, not published |
| SessionNotes.NoteFromDraft | app/session/page.tsx:292-302 | the note carries the id, timestamp, time, position, severity and publish flag over; its type is the draft's, or "Coach note" when that is empty |
| SessionNotes.NoteFromDraftClean | app/session/page.tsx:287-299 | the note's text is the trimmed draft text and its tags are the parsed, clean tag field |
| SessionNotes.InsertByTime | app/session/page.tsx:305 | inserting a note makes the list one note longer |
| SessionNotes.InsertByTimePermutation | app/session/page.tsx:304-306 | inserting adds exactly the new note to the list, as a multiset |
| SessionNotes.InsertByTimeSorted | app/session/page.tsx:305 | insertion keeps a time-ordered list time-ordered |
| SessionNotes.InsertByTimeStable | app/session/page.tsx:305 | insertion keeps the order among notes of equal time, the new note last among them |
| SessionNotes.SortByTime | app/session/page.tsx:305 | the sort keeps the number of notes |
| SessionNotes.SortByTimePermutation | app/session/page.tsx:305 | the sort is a permutation of its input |
| SessionNotes.SortByTimeSorted | app/session/page.tsx:305 | the sorted list is ordered by time |
| SessionNotes.SortByTimeStable | app/session/page.tsx:305 | the sort is stable: notes of equal time keep their order |
| SessionNotes.SortByTimeOfSorted | app/session/page.tsx:305 | sorting an ordered list changes nothing |
| SessionNotes.SaveIntoSorted | app/session/page.tsx:304-306 | appending to an ordered list and sorting is inserting after every note not later than the new one |
| SessionNotes.RemoveId | app/session/page.tsx:313 | `filter(a => a.id !== id)` keeps exactly the notes with another id |
| SessionNotes.RemoveIdConcat | app/session/page.tsx:313 | removal works piece by piece, so the remaining notes keep their order |
| SessionNotes.RemoveIdAbsent | app/session/page.tsx:313 | removing an absent id changes nothing, so removing twice is removing once |
| SessionNotes.RemoveIdSorted | app/session/page.tsx:313 | removal keeps a time-ordered list time-ordered |
| SessionPage.Progress | app/session/page.tsx:260 | 0 until the duration is positive, then the fraction that multiplied by the duration gives the current time |
| SessionPage.ProgressWithin | app/session/page.tsx:260 | with the playhead inside the video the progress lies in [0, 1] |
| SessionPage.ProgressOfPosition | app/session/page.tsx:347-354 | seeking to `pos * duration` reads back progress `pos` |
| SessionPage.TimelineTime | app/session/page.tsx:340-342 | the seek time lies in [0, duration], 0 left of the bar and the duration right of it |
| SessionPage.Saved | app/session/page.tsx:304-309 | saving changes only the list, the composer, the draft and the active note: composer closed, no draft, the new note active |
| SessionPage.SavedNotes | app/session/page.tsx:304-306 | after saving, the list is the old notes plus the new one, ordered by time |
| SessionPage.SessionReview.constructor | app/session/page.tsx:240-248 | the initial state: demo video, zero duration and time, no notes, composer closed, no draft, no active note, annotate mode and overlay on |
| SessionPage.SessionReview.OpenComposer | app/session/page.tsx:262-274 | a fresh draft at the given time and position, composer open, nothing else changed |
| SessionPage.SessionReview.AddAtPlayhead | app/session/page.tsx:276-282 | nothing while the duration is 0; otherwise a draft at the playhead and its progress |
| SessionPage.SessionReview.SaveDraft | app/session/page.tsx:284-310 | nothing without a draft; otherwise the note joins the sorted list, the composer closes, the draft goes and the note becomes active |
| SessionPage.SessionReview.DeleteNote | app/session/page.tsx:312-315 | exactly the notes with the id go, order kept; the active note is cleared only if it was that id |
| SessionPage.SessionReview.ClickNote | app/session/page.tsx:317-323 | with the video mounted, seek to the note and make it active; otherwise nothing |
| SessionPage.SessionReview.UploadVideo | app/session/page.tsx:325-333 | with a file chosen, its URL becomes the video, time and duration reset and the notes are cleared; otherwise nothing |
| SessionPage.SessionReview.TimelineClick | app/session/page.tsx:335-345 | with both elements mounted and a known duration, seek to the clamped fraction of the duration, which stays within the video |
| SessionPage.SessionReview.TrackAddAtPos | app/session/page.tsx:347-355 | in annotate mode with a known duration, seek to `pos * duration` and open a draft there; the progress then reads `pos` |
| SessionPage.SessionReview.LoadedMetadata | app/session/page.tsx:545-547 | the reported duration replaces the old one |
| SessionPage.SessionReview.TimeUpdate | app/session/page.tsx:548-550 | the reported time replaces the old one |
| SessionPage.SessionReview.CloseComposer | app/session/page.tsx:782-785 | the composer closes and the draft goes |
| SessionPage.SessionReview.KeyDown | app/session/page.tsx:357-379 | ignored for events from an `INPUT` or `TEXTAREA` element; `O` flips the overlay, `A` flips annotate mode, `N` adds at the playhead, anything else leaves the state alone |
| SessionPage.ToggleTwice | app/session/page.tsx:363-366 | pressing `O` or `A` twice restores the whole state |
| ChinFaq.Toggled | app/chin/page.tsx:169 | after `toggle(i)` item j is open exactly when j is i and i was not open |
| ChinFaq.ToggleTwice | app/chin/page.tsx:169 | toggling an item twice restores the accordion exactly when that item or nothing was open |
| ChinFaq.NextIndex | app/chin/page.tsx:177 | the ArrowDown target is in range: the next item, the first after the last |
| ChinFaq.PrevIndex | app/chin/page.tsx:181 | the ArrowUp target is in range: the previous item, the last before the first |
| ChinFaq.ArrowsInverse | app/chin/page.tsx:175-182 | ArrowDown then ArrowUp, and ArrowUp then ArrowDown, return to the start |
| ChinFaq.StepsDown | app/chin/page.tsx:177 | repeated ArrowDown presses stay on a question |
| ChinFaq.StepsDownWrap | app/chin/page.tsx:177 | up to a full lap, k presses move k questions on, wrapping past the last |
| ChinFaq.ArrowDownFullLap | app/chin/page.tsx:177 | as many ArrowDown presses as there are questions come back to the start |
| ChinFaq.FaqAccordion.constructor | app/chin/page.tsx:139 | every answer starts closed |
| ChinFaq.FaqAccordion.Toggle | app/chin/page.tsx:169 | a click sets the open item to the toggled value |
| ChinFaq.FaqAccordion.KeyDown | app/chin/page.tsx:171-184 | Enter and Space toggle and suppress the default; the arrows leave the open item alone and name the next or previous button to focus; other keys do nothing |

## Left out

- **Floating point.** IEEE-754 behaviour is not modelled: rounding, NaN and
  Infinity. The `!isFinite(t)` branch of `formatTime`, `|| 0` on a NaN
  progress or duration, and `!duration` for a NaN duration are therefore absent.
- **Square root.** `Math.sqrt` is the abstract parameter `len`. The model
  relies only on its sign and on its zero.
- **Unguarded divisions.** The projection divides by the latitude and longitude
  spans without a guard. `ProjectLatLonToSvg` and `BuildPolylineFromGeoJson`
  therefore require positive spans. `nearestPointOnPolyline` divides by the
  total length, so `NearestPointOnPolyline` requires a positive total for two
  or more points. The code has no fallback value for a zero span.
- **Malformed GeoJSON.** Error logging, the `try/catch` in
  `buildPolylineFromGeoJSON`, and coordinate entries with fewer than two
  numbers are not modelled. GeoJSON is modelled only as far as the builder
  reads it.
- **Storage and files.** localStorage persistence (`loadStoredAnnotations`,
  `saveAnnotations` and the effects calling them) and the JSON export through a
  Blob are not modelled. Neither are `URL.createObjectURL` and the file picker:
  the object URL is a parameter.
- **Video element.** `currentTime` assignments on the element, and `play()`,
  `pause()` and the space-bar play/pause, are not modelled. The page state
  still mirrors each seek.
- **Id and clock.** `Date.now`, `Math.random` and `new Date().toISOString()`
  are not modelled; the id and timestamp are parameters.
- **Track map.** The oval mapping of the `TrackMap` component (trigonometry
  and `getBoundingClientRect`) is not modelled.
- **Composer field setters.** The setters that edit the draft's fields one at a
  time are not modelled.
- **Rendering.** The severity colours, the `activeAnnotation` lookup and the
  rest of the rendering are not modelled.
- **FAQ focus and styling.** The focus move itself is not modelled:
  `FaqAccordion.KeyDown` returns the index it would focus.
- SessionNotes.NoteFromDraft: severity is a closed datatype, so the
  `|| "info"` fallback for an empty severity cannot arise and is not modelled.
- SessionNotes.SortByTime: models `Array.prototype.sort` with the comparator
  `a.t - b.t` as a stable insertion sort over the exact order of times. It does
  not model the engine's algorithm, only its result.
