/**
 * The notes of a session review: the annotation record, the draft the composer
 * edits, how a saved draft becomes an annotation, the list ordered by video time
 * (`[...prev, ann].sort((a, b) => a.t - b.t)`, a stable sort since ECMAScript 2019)
 * and removal by id (`prev.filter((a) => a.id !== id)`).
 */
module SessionNotes {
  import opened SessionText

  datatype Severity = Info | Warn | Critical

  /** A saved note: `t` is the time in the video in seconds, `pos` the fraction of the lap. */
  datatype Annotation = Annotation(
    id: string,
    t: real,
    pos: real,
    kind: string,
    severity: Severity,
    tags: seq<string>,
    text: string,
    publish: bool,
    createdAt: string)

  /** The note being composed; its tags are still the raw comma-separated field. */
  datatype DraftNote = DraftNote(
    t: real,
    pos: real,
    kind: string,
    severity: Severity,
    tags: string,
    text: string,
    publish: bool)

  /** The note type a new draft starts with, and the one an emptied type falls back to. */
  const DefaultKind := "Coach note"

  /** A fresh draft at time t and lap position pos, with every other field at its default. */
  function NewDraft(t: real, pos: real): (draft: DraftNote)
    ensures draft.t == t && draft.pos == pos
    ensures draft.kind == DefaultKind && draft.severity == Info
    ensures draft.tags == "" && draft.text == "" && !draft.publish
  {
    DraftNote(t, pos, DefaultKind, Info, "", "", false)
  }

  /** The annotation `handleSaveDraft` builds from the draft, the new id and the creation
      time: the fields carry over and the type is never empty. */
  function NoteFromDraft(draft: DraftNote, id: string, createdAt: string): (note: Annotation)
    ensures note.id == id && note.createdAt == createdAt
    ensures note.t == draft.t && note.pos == draft.pos
    ensures note.severity == draft.severity && note.publish == draft.publish
    ensures note.kind != "" && (draft.kind != "" ==> note.kind == draft.kind)
    ensures draft.kind == "" ==> note.kind == DefaultKind
  {
    Annotation(
      id,
      draft.t,
      draft.pos,
      if draft.kind == "" then DefaultKind else draft.kind,
      draft.severity,
      ParseTags(draft.tags),
      Trim(draft.text),
      draft.publish,
      createdAt)
  }

  /** The note's text is the draft's text without surrounding whitespace, and its tags are
      the clean pieces of the draft's tag field, in field order. */
  lemma NoteFromDraftClean(draft: DraftNote, id: string, createdAt: string)
    ensures var note := NoteFromDraft(draft, id, createdAt);
      && note.text == Trim(draft.text) && IsTrimmed(note.text)
      && note.tags == ParseTags(draft.tags)
      && forall i :: 0 <= i < |note.tags| ==> IsCleanTag(note.tags[i])
  {
    TrimSpec(draft.text);
    ParseTagsClean(draft.tags);
  }

  // ---------------------------------------------------------------------------
  // Ordering by time
  // ---------------------------------------------------------------------------

  /** Non-decreasing video time from the first note to the last. */
  predicate SortedByTime(notes: seq<Annotation>)
  {
    forall i, j :: 0 <= i < j < |notes| ==> notes[i].t <= notes[j].t
  }

  /** The notes of the list at video time tt, in list order. */
  function AtTime(notes: seq<Annotation>, tt: real): (r: seq<Annotation>)
    ensures |r| <= |notes|
  {
    if |notes| == 0 then []
    else
      var last := notes[|notes| - 1];
      AtTime(notes[..|notes| - 1], tt) + (if last.t == tt then [last] else [])
  }

  lemma {:induction false} AtTimeConcat(a: seq<Annotation>, b: seq<Annotation>, tt: real)
    ensures AtTime(a + b, tt) == AtTime(a, tt) + AtTime(b, tt)
    decreases |b|
  {
    if |b| == 0 {
      assert a + b == a;
    } else {
      assert (a + b)[..|a + b| - 1] == a + b[..|b| - 1];
      AtTimeConcat(a, b[..|b| - 1], tt);
    }
  }

  /** Insert `note` after every note whose time is not later than its own: where a stable
      sort puts an element that comes last. */
  function InsertByTime(notes: seq<Annotation>, note: Annotation): (r: seq<Annotation>)
    ensures |r| == |notes| + 1
  {
    if |notes| == 0 then [note]
    else if notes[|notes| - 1].t <= note.t then notes + [note]
    else InsertByTime(notes[..|notes| - 1], note) + [notes[|notes| - 1]]
  }

  /** Insertion adds exactly the new note to the list. */
  lemma {:induction false} InsertByTimePermutation(notes: seq<Annotation>, note: Annotation)
    ensures multiset(InsertByTime(notes, note)) == multiset(notes) + multiset{note}
  {
    if |notes| > 0 && note.t < notes[|notes| - 1].t {
      var init, last := notes[..|notes| - 1], notes[|notes| - 1];
      InsertByTimePermutation(init, note);
      assert notes == init + [last];
      assert multiset(InsertByTime(notes, note)) == multiset(notes) + multiset{note};
    }
  }

  /** Inserting into an ordered list keeps it ordered. */
  lemma {:induction false} InsertByTimeSorted(notes: seq<Annotation>, note: Annotation)
    requires SortedByTime(notes)
    ensures SortedByTime(InsertByTime(notes, note))
  {
    if |notes| > 0 && note.t < notes[|notes| - 1].t {
      var init, last := notes[..|notes| - 1], notes[|notes| - 1];
      assert SortedByTime(init) by {
        forall i, j | 0 <= i < j < |init|
          ensures init[i].t <= init[j].t
        {
          assert init[i] == notes[i] && init[j] == notes[j];
        }
      }
      InsertByTimeSorted(init, note);
      assert forall k :: 0 <= k < |init| ==> init[k].t <= last.t by {
        forall k | 0 <= k < |init|
          ensures init[k].t <= last.t
        {
          assert init[k] == notes[k];
        }
      }
      InsertByTimeBounded(init, note, last.t);
      var r' := InsertByTime(init, note);
      var r := r' + [last];
      assert InsertByTime(notes, note) == r;
      forall i, j | 0 <= i < j < |r|
        ensures r[i].t <= r[j].t
      {
        assert r[i] == r'[i];
        if j < |r| - 1 {
          assert r[j] == r'[j];
        }
      }
    }
  }

  /** Inserting a note no later than a bound into notes no later than it keeps every note no
      later than the bound. */
  lemma InsertByTimeBounded(notes: seq<Annotation>, note: Annotation, bound: real)
    requires forall k :: 0 <= k < |notes| ==> notes[k].t <= bound
    requires note.t <= bound
    ensures forall k :: 0 <= k < |InsertByTime(notes, note)| ==> InsertByTime(notes, note)[k].t <= bound
  {
    var r := InsertByTime(notes, note);
    InsertByTimePermutation(notes, note);
    forall k | 0 <= k < |r|
      ensures r[k].t <= bound
    {
      assert r[k] in multiset(r);
      if r[k] != note {
        assert r[k] in multiset(notes);
        var m :| 0 <= m < |notes| && notes[m] == r[k];
      }
    }
  }

  /** Insertion leaves the order among the notes of each time unchanged, the inserted note
      coming after the others of its time. */
  lemma {:induction false} InsertByTimeStable(notes: seq<Annotation>, note: Annotation, tt: real)
    ensures AtTime(InsertByTime(notes, note), tt) == AtTime(notes, tt) + AtTime([note], tt)
  {
    if |notes| == 0 {
      assert AtTime([], tt) == [];
    } else {
      var init, last := notes[..|notes| - 1], notes[|notes| - 1];
      if last.t <= note.t {
        AtTimeConcat(notes, [note], tt);
      } else {
        InsertByTimeStable(init, note, tt);
        AtTimeConcat(InsertByTime(init, note), [last], tt);
        AtTimeConcat(init, [last], tt);
        assert notes == init + [last];
        assert AtTime([last], tt) == [] || AtTime([note], tt) == [];
      }
    }
  }

  /** `Array.prototype.sort` by time: a stable insertion sort. */
  function SortByTime(notes: seq<Annotation>): (r: seq<Annotation>)
    ensures |r| == |notes|
  {
    if |notes| == 0 then []
    else InsertByTime(SortByTime(notes[..|notes| - 1]), notes[|notes| - 1])
  }

  /** The sort is a permutation of its input. */
  lemma {:induction false} SortByTimePermutation(notes: seq<Annotation>)
    ensures multiset(SortByTime(notes)) == multiset(notes)
  {
    if |notes| > 0 {
      var init, last := notes[..|notes| - 1], notes[|notes| - 1];
      var sorted := SortByTime(init);
      assert multiset(SortByTime(notes)) == multiset(sorted) + multiset{last} by {
        assert SortByTime(notes) == InsertByTime(sorted, last);
        InsertByTimePermutation(sorted, last);
      }
      assert multiset(sorted) == multiset(init) by {
        SortByTimePermutation(init);
      }
      assert multiset(notes) == multiset(init) + multiset{last} by {
        assert notes == init + [last];
      }
    }
  }

  /** The sorted list is ordered by time. */
  lemma {:induction false} SortByTimeSorted(notes: seq<Annotation>)
    ensures SortedByTime(SortByTime(notes))
  {
    if |notes| > 0 {
      SortByTimeSorted(notes[..|notes| - 1]);
      InsertByTimeSorted(SortByTime(notes[..|notes| - 1]), notes[|notes| - 1]);
    }
  }

  /** The sort is stable: the notes of each time keep their relative order. */
  lemma {:induction false} SortByTimeStable(notes: seq<Annotation>, tt: real)
    ensures AtTime(SortByTime(notes), tt) == AtTime(notes, tt)
  {
    if |notes| > 0 {
      var init, last := notes[..|notes| - 1], notes[|notes| - 1];
      var sorted := SortByTime(init);
      assert SortByTime(notes) == InsertByTime(sorted, last);
      SortByTimeStable(init, tt);
      InsertByTimeStable(sorted, last, tt);
      assert AtTime([last], tt) == if last.t == tt then [last] else [] by {
        assert [last][..0] == [];
      }
    }
  }

  /** An ordered list is its own sort. */
  lemma {:induction false} SortByTimeOfSorted(notes: seq<Annotation>)
    requires SortedByTime(notes)
    ensures SortByTime(notes) == notes
  {
    if |notes| > 0 {
      var init, last := notes[..|notes| - 1], notes[|notes| - 1];
      assert SortedByTime(init) by {
        forall i, j | 0 <= i < j < |init|
          ensures init[i].t <= init[j].t
        {
          assert init[i] == notes[i] && init[j] == notes[j];
        }
      }
      SortByTimeOfSorted(init);
      assert InsertByTime(init, last) == notes by {
        assert notes == init + [last];
        assert |init| == 0 || init[|init| - 1].t <= last.t;
      }
    }
  }

  /** Saving into an ordered list places the new note after every note not later than it,
      and the list stays ordered. */
  lemma SaveIntoSorted(notes: seq<Annotation>, note: Annotation)
    requires SortedByTime(notes)
    ensures SortByTime(notes + [note]) == InsertByTime(notes, note)
    ensures SortedByTime(SortByTime(notes + [note]))
  {
    assert (notes + [note])[..|notes|] == notes;
    SortByTimeOfSorted(notes);
    InsertByTimeSorted(notes, note);
  }

  // ---------------------------------------------------------------------------
  // Removal by id
  // ---------------------------------------------------------------------------

  /** `notes.filter((a) => a.id !== id)` */
  function RemoveId(notes: seq<Annotation>, id: string): (r: seq<Annotation>)
    ensures |r| <= |notes|
    ensures forall x :: x in r <==> x in notes && x.id != id
  {
    if |notes| == 0 then []
    else (if notes[0].id == id then [] else [notes[0]]) + RemoveId(notes[1..], id)
  }

  /** Removal works piece by piece, so the remaining notes keep their order. */
  lemma {:induction false} RemoveIdConcat(a: seq<Annotation>, b: seq<Annotation>, id: string)
    ensures RemoveId(a + b, id) == RemoveId(a, id) + RemoveId(b, id)
  {
    if |a| == 0 {
      assert a + b == b;
    } else {
      assert (a + b)[1..] == a[1..] + b;
      RemoveIdConcat(a[1..], b, id);
    }
  }

  /** A list without the id is left unchanged; in particular removing twice is removing once. */
  lemma {:induction false} RemoveIdAbsent(notes: seq<Annotation>, id: string)
    requires forall x :: x in notes ==> x.id != id
    ensures RemoveId(notes, id) == notes
  {
    if |notes| > 0 {
      RemoveIdAbsent(notes[1..], id);
    }
  }

  /** Removal keeps an ordered list ordered. */
  lemma {:induction false} RemoveIdSorted(notes: seq<Annotation>, id: string)
    requires SortedByTime(notes)
    ensures SortedByTime(RemoveId(notes, id))
  {
    if |notes| > 0 {
      RemoveIdSorted(notes[1..], id);
      var rest := RemoveId(notes[1..], id);
      forall x | x in rest
        ensures notes[0].t <= x.t
      {
        var k :| 0 <= k < |notes[1..]| && notes[1..][k] == x;
      }
    }
  }
}
