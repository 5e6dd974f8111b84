/**
 * The state behind the session review page and the handlers that change it:
 * opening the composer at the playhead or at a lap position, saving and
 * deleting notes, seeking from the timeline, replacing the video, the video's
 * metadata and time events, and the `O`/`A`/`N` keyboard shortcuts.
 *
 * The video element, the timeline element and the file picker are outside the
 * model: each handler receives what it would read from them (whether they are
 * mounted, the click fraction, the object URL of the chosen file). The id and
 * the creation time of a new note are parameters as well.
 */
module SessionPage {
  import opened Wrappers
  import opened Numeric
  import opened SessionNotes

  /** The video the page starts with. */
  const DemoVideoUrl := "https://72wwpkyupbfa6lbi.public.blob.vercel-storage.com/demo/demo-lap.mp4"

  /** How far the playhead is through the video: 0 until the duration is known. */
  function Progress(currentTime: real, duration: real): (progress: real)
    ensures duration <= 0.0 ==> progress == 0.0
    ensures 0.0 < duration ==> progress * duration == currentTime
  {
    if duration > 0.0 then currentTime / duration else 0.0
  }

  /** While the playhead is within the video, the progress lies in the unit interval. */
  lemma ProgressWithin(currentTime: real, duration: real)
    requires 0.0 <= currentTime <= duration
    ensures 0.0 <= Progress(currentTime, duration) <= 1.0
  {
    if 0.0 < duration {
      UnitRatio(currentTime, duration);
    }
  }

  /** Seeking to lap position pos and reading the progress back gives pos. */
  lemma ProgressOfPosition(pos: real, duration: real)
    requires 0.0 < duration
    ensures Progress(pos * duration, duration) == pos
  {
    var p := Progress(pos * duration, duration);
    assert (p - pos) * duration == 0.0;
  }

  /** The time a timeline click seeks to: the clamped click fraction of the duration. */
  function TimelineTime(frac: real, duration: real): (t: real)
    requires 0.0 <= duration
    ensures 0.0 <= t <= duration
    ensures frac <= 0.0 ==> t == 0.0
    ensures 1.0 <= frac ==> t == duration
  {
    ScaleWithin(Clamp01(frac), duration);
    Clamp01(frac) * duration
  }

  /** The page after saving `draft` as the note with the given id and creation time. */
  function Saved(page: PageState, draft: DraftNote, id: string, createdAt: string): (saved: PageState)
    ensures saved == page.(annotations := saved.annotations, composerOpen := false, draft := None,
                           activeNoteId := Some(id))
  {
    page.(annotations := SortByTime(page.annotations + [NoteFromDraft(draft, id, createdAt)]),
      composerOpen := false, draft := None, activeNoteId := Some(id))
  }

  /** After saving, the list holds the old notes and the new one, one more than before, in
      time order whatever order the list had. */
  lemma SavedNotes(page: PageState, draft: DraftNote, id: string, createdAt: string)
    ensures var notes := Saved(page, draft, id, createdAt).annotations;
      && |notes| == |page.annotations| + 1
      && multiset(notes) == multiset(page.annotations) + multiset{NoteFromDraft(draft, id, createdAt)}
      && SortedByTime(notes)
  {
    SortByTimeSorted(page.annotations + [NoteFromDraft(draft, id, createdAt)]);
    SortByTimePermutation(page.annotations + [NoteFromDraft(draft, id, createdAt)]);
  }

  /** Every field of the page at one moment. */
  datatype PageState = PageState(
    videoSrc: string,
    duration: real,
    currentTime: real,
    annotations: seq<Annotation>,
    composerOpen: bool,
    draft: Option<DraftNote>,
    activeNoteId: Option<string>,
    annotateMode: bool,
    overlayOn: bool)

  class SessionReview {
    var videoSrc: string
    var duration: real
    var currentTime: real
    var annotations: seq<Annotation>
    var composerOpen: bool
    var draft: Option<DraftNote>
    var activeNoteId: Option<string>
    var annotateMode: bool
    var overlayOn: bool

    /** The composer is open exactly while there is a draft, and the duration the video
        reports is never negative. */
    ghost predicate Valid()
      reads this
    {
      (composerOpen <==> draft.Some?) && 0.0 <= duration
    }

    function State(): PageState
      reads this
    {
      PageState(videoSrc, duration, currentTime, annotations, composerOpen, draft,
        activeNoteId, annotateMode, overlayOn)
    }

    constructor()
      ensures Valid()
      ensures State() == PageState(DemoVideoUrl, 0.0, 0.0, [], false, None, None, true, true)
    {
      videoSrc := DemoVideoUrl;
      duration := 0.0;
      currentTime := 0.0;
      annotations := [];
      composerOpen := false;
      draft := None;
      activeNoteId := None;
      annotateMode := true;
      overlayOn := true;
    }

    /** `openComposer({ t, pos })`: a fresh draft at that time and position. */
    method OpenComposer(t: real, pos: real)
      requires Valid()
      modifies this
      ensures Valid()
      ensures State() == old(State()).(composerOpen := true, draft := Some(NewDraft(t, pos)))
    {
      draft := Some(NewDraft(t, pos));
      composerOpen := true;
    }

    /** `handleAddAtPlayhead`: nothing until the duration is known; then a draft at the
        playhead time and the progress through the video. */
    method AddAtPlayhead()
      requires Valid()
      modifies this
      ensures Valid()
      ensures old(duration) == 0.0 ==> State() == old(State())
      ensures old(duration) != 0.0 ==> State() == old(State()).(composerOpen := true,
        draft := Some(NewDraft(old(currentTime), Progress(old(currentTime), old(duration)))))
    {
      if duration == 0.0 {
        return;
      }
      OpenComposer(currentTime, Progress(currentTime, duration));
    }

    /** `handleSaveDraft`: the draft becomes a note in the time-ordered list, the composer
        closes and the new note becomes the active one. */
    method SaveDraft(id: string, createdAt: string)
      requires Valid()
      modifies this
      ensures Valid()
      ensures old(draft).None? ==> State() == old(State())
      ensures old(draft).Some? ==> State() == Saved(old(State()), old(draft).value, id, createdAt)
      ensures old(draft).Some? ==> SortedByTime(annotations) && activeNoteId == Some(id)
    {
      if draft.None? {
        return;
      }
      var note := NoteFromDraft(draft.value, id, createdAt);
      ghost var before := State();
      annotations := SortByTime(annotations + [note]);
      composerOpen := false;
      draft := None;
      activeNoteId := Some(id);
      assert State() == before.(annotations := annotations, composerOpen := false, draft := None,
        activeNoteId := Some(id));
      SavedNotes(before, old(draft).value, id, createdAt);
    }

    /** `handleDeleteNote`: every note with the id goes, the rest keep their order, and the
        active note is cleared only when it was the deleted one. */
    method DeleteNote(id: string)
      requires Valid()
      modifies this
      ensures Valid()
      ensures State() == old(State()).(annotations := RemoveId(old(annotations), id),
        activeNoteId := if old(activeNoteId) == Some(id) then None else old(activeNoteId))
      ensures forall x :: x in annotations <==> x in old(annotations) && x.id != id
      ensures SortedByTime(old(annotations)) ==> SortedByTime(annotations)
    {
      annotations := RemoveId(annotations, id);
      if SortedByTime(old(annotations)) {
        RemoveIdSorted(old(annotations), id);
      }
      if activeNoteId == Some(id) {
        activeNoteId := None;
      }
    }

    /** `handleClickNote`: with the video mounted, seek to the note and make it active. */
    method ClickNote(note: Annotation, videoMounted: bool)
      requires Valid()
      modifies this
      ensures Valid()
      ensures !videoMounted ==> State() == old(State())
      ensures videoMounted ==>
        State() == old(State()).(currentTime := note.t, activeNoteId := Some(note.id))
    {
      if !videoMounted {
        return;
      }
      currentTime := note.t;
      activeNoteId := Some(note.id);
    }

    /** `handleUploadVideo`: with a file chosen, play it from the start with no notes. */
    method UploadVideo(objectUrl: Option<string>)
      requires Valid()
      modifies this
      ensures Valid()
      ensures objectUrl.None? ==> State() == old(State())
      ensures objectUrl.Some? ==> State() == old(State()).(videoSrc := objectUrl.value,
        currentTime := 0.0, duration := 0.0, annotations := [])
    {
      if objectUrl.None? {
        return;
      }
      videoSrc := objectUrl.value;
      currentTime := 0.0;
      duration := 0.0;
      annotations := [];
    }

    /** `handleTimelineClick`: with both elements mounted and the duration known, seek to the
        clamped fraction of the duration; the new time lies within the video. */
    method TimelineClick(frac: real, elementsMounted: bool)
      requires Valid()
      modifies this
      ensures Valid()
      ensures !elementsMounted || old(duration) == 0.0 ==> State() == old(State())
      ensures elementsMounted && old(duration) != 0.0 ==>
        State() == old(State()).(currentTime := TimelineTime(frac, duration))
      ensures 0.0 <= old(currentTime) <= duration ==> 0.0 <= currentTime <= duration
    {
      if !elementsMounted || duration == 0.0 {
        return;
      }
      currentTime := TimelineTime(frac, duration);
    }

    /** `handleTrackAddAtPos`: in annotate mode with the duration known, seek to the lap
        position and open the composer there; the progress then reads back as that position. */
    method TrackAddAtPos(pos: real)
      requires Valid()
      modifies this
      ensures Valid()
      ensures !old(annotateMode) || old(duration) == 0.0 ==> State() == old(State())
      ensures old(annotateMode) && old(duration) != 0.0 ==>
        State() == old(State()).(currentTime := pos * duration, composerOpen := true,
          draft := Some(NewDraft(pos * duration, pos)))
        && Progress(currentTime, duration) == pos
    {
      if !annotateMode || duration == 0.0 {
        return;
      }
      var t := pos * duration;
      currentTime := t;
      OpenComposer(t, pos);
      ProgressOfPosition(pos, duration);
    }

    /** `onLoadedMetadata`: the video reports its duration. */
    method LoadedMetadata(videoDuration: real)
      requires Valid() && 0.0 <= videoDuration
      modifies this
      ensures Valid()
      ensures State() == old(State()).(duration := videoDuration)
    {
      duration := videoDuration;
    }

    /** `onTimeUpdate`: the video reports its playhead. */
    method TimeUpdate(videoTime: real)
      requires Valid()
      modifies this
      ensures Valid()
      ensures State() == old(State()).(currentTime := videoTime)
    {
      currentTime := videoTime;
    }

    /** The composer's Close and Cancel buttons. */
    method CloseComposer()
      requires Valid()
      modifies this
      ensures Valid()
      ensures State() == old(State()).(composerOpen := false, draft := None)
    {
      composerOpen := false;
      draft := None;
    }

    /** The window key handler: ignored when the event comes from an `INPUT` or `TEXTAREA`
        element (any kind of input, a checkbox included); `O` flips the overlay,
        `A` flips annotate mode, `N` adds a note at the playhead; other keys (the space bar
        only plays or pauses the video) leave the page state alone. */
    method KeyDown(key: string, fromInputOrTextArea: bool)
      requires Valid()
      modifies this
      ensures Valid()
      ensures fromInputOrTextArea ==> State() == old(State())
      ensures !fromInputOrTextArea && (key == "o" || key == "O") ==>
        State() == old(State()).(overlayOn := !old(overlayOn))
      ensures !fromInputOrTextArea && (key == "a" || key == "A") ==>
        State() == old(State()).(annotateMode := !old(annotateMode))
      ensures !fromInputOrTextArea && (key == "n" || key == "N") && old(duration) != 0.0 ==>
        State() == old(State()).(composerOpen := true,
          draft := Some(NewDraft(old(currentTime), Progress(old(currentTime), old(duration)))))
      ensures !fromInputOrTextArea && !(key in ["o", "O", "a", "A"]) && (!(key in ["n", "N"]) || old(duration) == 0.0) ==>
        State() == old(State())
    {
      if fromInputOrTextArea {
        return;
      }
      if key == "o" || key == "O" {
        overlayOn := !overlayOn;
      } else if key == "a" || key == "A" {
        annotateMode := !annotateMode;
      } else if key == "n" || key == "N" {
        AddAtPlayhead();
      }
    }
  }

  /** Pressing `O` or `A` twice outside a text field leaves the page as it was. */
  method ToggleTwice(page: SessionReview, key: string)
    requires page.Valid() && key in ["o", "O", "a", "A"]
    modifies page
    ensures page.Valid()
    ensures page.State() == old(page.State())
  {
    page.KeyDown(key, false);
    page.KeyDown(key, false);
  }
}
