/** The training-sessions page, its state: the React state variables of the page become the
    fields of one object, and each handler a method that reassigns them. */
module SessionsPage {
  import opened Common
  import opened Sessions

  /** `editingTrainerNote`: the entry whose note box is open, and the text typed so far. */
  datatype NoteDraft = NoteDraft(entryId: Option<int>, note: string)

  const NoDraft := NoteDraft(None, "")

  /** All the page's state at once, to say what a handler leaves alone. */
  datatype PageState = PageState(showModal: bool, editingSession: Option<Session>, expanded: set<int>,
                                 visibleVideos: set<VideoKey>, noteDraft: NoteDraft, form: SessionForm)

  /** The form's own fields, outside the entry rows. */
  datatype DetailField = DogField | DateField | LevelField | SessionNotesField

  function SetDetail(form: SessionForm, f: DetailField, v: string): (r: SessionForm)
    ensures r.entries == form.entries && r.videoFile == form.videoFile && r.existingVideoUrl == form.existingVideoUrl
    ensures f == DogField ==> r == form.(dogId := v)
    ensures f == DateField ==> r == form.(date := v)
    ensures f == LevelField ==> r == form.(level := v)
    ensures f == SessionNotesField ==> r == form.(notes := v)
  {
    match f
    case DogField => form.(dogId := v)
    case DateField => form.(date := v)
    case LevelField => form.(level := v)
    case SessionNotesField => form.(notes := v)
  }

  /** The text an input of the form shows. */
  function DetailValue(form: SessionForm, f: DetailField): string {
    match f
    case DogField => form.dogId
    case DateField => form.date
    case LevelField => form.level
    case SessionNotesField => form.notes
  }

  /** An input's change reads back as the typed text and leaves the other inputs, the rows
      and the chosen videos alone; writing back what an input shows changes nothing, and a
      later change of the same input overrides an earlier one. */
  lemma SetDetailLaws(form: SessionForm, f: DetailField, g: DetailField, v: string, w: string)
    ensures DetailValue(SetDetail(form, f, v), f) == v
    ensures g != f ==> DetailValue(SetDetail(form, f, v), g) == DetailValue(form, g)
    ensures SetDetail(form, f, v).entries == form.entries && SetDetail(form, f, v).videoFile == form.videoFile
    ensures SetDetail(form, f, DetailValue(form, f)) == form
    ensures SetDetail(SetDetail(form, f, v), f, w) == SetDetail(form, f, w)
  {
  }

  /** The loop over the valid rows after a save: row `i` gets its video uploaded to the
      `i`-th created entry when it has a file and that entry exists. */
  method PlanEntryUploads(valid: seq<FormEntry>, createdIds: seq<int>) returns (uploads: seq<EntryUpload>)
    ensures uploads == EntryUploads(valid, createdIds, |valid|)
  {
    uploads := [];
    for i := 0 to |valid|
      invariant uploads == EntryUploads(valid, createdIds, i)
    {
      if valid[i].videoFile.Some? && i < |createdIds| {
        uploads := uploads + [EntryUpload(createdIds[i], valid[i].videoFile.value)];
      }
    }
  }

  class Page {
    var showModal: bool
    var editingSession: Option<Session>
    var expanded: set<int>
    var visibleVideos: set<VideoKey>
    var noteDraft: NoteDraft
    var form: SessionForm

    function State(): PageState
      reads this
    {
      PageState(showModal, editingSession, expanded, visibleVideos, noteDraft, form)
    }

    /** The initial state: nothing open, nothing expanded, the blank form dated `today`. */
    constructor (today: string)
      ensures State() == PageState(false, None, {}, {}, NoDraft, BlankForm(today))
    {
      showModal := false;
      editingSession := None;
      expanded := {};
      visibleVideos := {};
      noteDraft := NoDraft;
      form := BlankForm(today);
    }

    /** `toggleSession`: copies the set of expanded sessions, then deletes or adds the id. */
    method ToggleSession(id: int)
      modifies this
      ensures State() == old(State()).(expanded := Toggled(old(expanded), id))
    {
      var next := expanded;
      if id in next {
        next := next - {id};
      } else {
        next := next + {id};
      }
      expanded := next;
    }

    /** The "show video" button of a session or an entry. */
    method ShowVideo(key: VideoKey)
      modifies this
      ensures State() == old(State()).(visibleVideos := old(visibleVideos) + {key})
    {
      visibleVideos := visibleVideos + {key};
    }

    /** The "hide" button of a session or an entry video. */
    method HideVideo(key: VideoKey)
      modifies this
      ensures State() == old(State()).(visibleVideos := old(visibleVideos) - {key})
    {
      visibleVideos := visibleVideos - {key};
    }

    /** The "add session" buttons open the modal with the form as it is. */
    method OpenModal()
      modifies this
      ensures State() == old(State()).(showModal := true)
    {
      showModal := true;
    }

    /** `handleAddEntry`: one blank row at the end, the existing rows kept. */
    method AddEntry()
      modifies this
      ensures State() == old(State()).(form := old(form).(entries := old(form).entries + [BlankEntry]))
    {
      form := form.(entries := form.entries + [BlankEntry]);
    }

    /** `handleEntryChange(index, field, value)`: only that field of that row changes. */
    method ChangeEntry(index: nat, field: EntryField, value: string)
      requires index < |form.entries|
      modifies this
      ensures State() == old(State()).(form := old(form).(entries := old(form).entries[index := SetField(old(form).entries[index], field, value)]))
    {
      var rows := form.entries;
      rows := rows[index := SetField(rows[index], field, value)];
      form := form.(entries := rows);
    }

    /** `handleEntryVideoFileChange(index, file)`: only the file of that row changes. */
    method ChangeEntryVideo(index: nat, file: File)
      requires index < |form.entries|
      modifies this
      ensures State() == old(State()).(form := old(form).(entries := old(form).entries[index := old(form).entries[index].(videoFile := Some(file))]))
    {
      var rows := form.entries;
      rows := rows[index := rows[index].(videoFile := Some(file))];
      form := form.(entries := rows);
    }

    /** The `onChange` of the dog, date, level and notes inputs. */
    method ChangeDetail(field: DetailField, value: string)
      modifies this
      ensures State() == old(State()).(form := SetDetail(old(form), field, value))
    {
      form := SetDetail(form, field, value);
    }

    /** `handleSessionVideoFileChange(file)`. */
    method ChangeSessionVideo(file: File)
      modifies this
      ensures State() == old(State()).(form := old(form).(videoFile := Some(file)))
    {
      form := form.(videoFile := Some(file));
    }

    /** `handleEdit(session)`: the modal opens on a form filled from the session;
        `dateText` is its date as `YYYY-MM-DD`. */
    method Edit(session: Session, dateText: string)
      modifies this
      ensures State() == old(State()).(showModal := true, editingSession := Some(session), form := EditForm(session, dateText))
    {
      editingSession := Some(session);
      form := EditForm(session, dateText);
      showModal := true;
    }

    /** `handleCloseModal`: closed, nothing being edited, the blank form dated `today`. */
    method CloseModal(today: string)
      modifies this
      ensures State() == old(State()).(showModal := false, editingSession := None, form := BlankForm(today))
    {
      showModal := false;
      editingSession := None;
      form := BlankForm(today);
    }

    /** `handleSubmit`, given the answer of the save call. A refused or failed submit leaves
        every field as it was; a saved one closes and resets the modal. */
    method Submit(today: string, response: SaveResponse) returns (result: Submission)
      modifies this
      ensures result == SubmitResult(old(form), old(editingSession), response)
      ensures result.SavedAndUploaded? ==>
                State() == old(State()).(showModal := false, editingSession := None, form := BlankForm(today))
      ensures !result.SavedAndUploaded? ==> State() == old(State())
    {
      var built := BuildPayload(form);
      if built.Err? {
        return Refused(built.error);
      }
      var call := SaveCallFor(editingSession, built.value);
      if response.SaveFailed? {
        return SaveOnly(call);
      }
      var video := if form.videoFile.Some? then Some(SessionUpload(response.sessionId, form.videoFile.value)) else None;
      var uploads := PlanEntryUploads(ValidEntries(form.entries), response.createdIds);
      result := SavedAndUploaded(call, video, uploads);
      CloseModal(today);
    }

    /** The "add trainer note" link opens an empty note box under that entry. */
    method StartNote(entryId: int)
      modifies this
      ensures State() == old(State()).(noteDraft := NoteDraft(Some(entryId), ""))
    {
      noteDraft := NoteDraft(Some(entryId), "");
    }

    /** Typing in the note box. */
    method ChangeNote(text: string)
      modifies this
      ensures State() == old(State()).(noteDraft := old(noteDraft).(note := text))
    {
      noteDraft := noteDraft.(note := text);
    }

    /** The cancel button of the note box. */
    method CancelNote()
      modifies this
      ensures State() == old(State()).(noteDraft := NoDraft)
    {
      noteDraft := NoDraft;
    }

    /** `handleAddTrainerNote` with the typed note; `saved` says whether the call
        succeeded. Only a successful call closes the note box. */
    method AddTrainerNote(sessionId: int, entryId: int, saved: bool) returns (call: Option<NoteCall>)
      modifies this
      ensures call == TrainerNoteCall(sessionId, entryId, old(noteDraft).note)
      ensures State() == if call.Some? && saved then old(State()).(noteDraft := NoDraft) else old(State())
    {
      call := TrainerNoteCall(sessionId, entryId, noteDraft.note);
      if call.Some? && saved {
        noteDraft := NoDraft;
      }
    }
  }

  /** Changing one field of one row and reading the rows back: that field of that row holds
      the new value, and every other row and field is as before. */
  lemma ChangeEntryOnly(rows: seq<FormEntry>, index: nat, field: EntryField, value: string)
    requires index < |rows|
    ensures var after := rows[index := SetField(rows[index], field, value)];
            |after| == |rows| && FieldValue(after[index], field) == value
            && (forall g :: g != field ==> FieldValue(after[index], g) == FieldValue(rows[index], g))
            && (forall j :: 0 <= j < |rows| && j != index ==> after[j] == rows[j])
  {
  }

  /** The uploads planned after a save never exceed the valid rows, and none are planned
      when the server returned no entries. */
  lemma PlannedUploadsBounded(valid: seq<FormEntry>, createdIds: seq<int>)
    ensures |EntryUploads(valid, createdIds, |valid|)| <= |valid|
    ensures EntryUploads(valid, [], |valid|) == []
  {
    EntryUploadsExact(valid, createdIds, |valid|);
    NoCreatedNoUploads(valid, |valid|);
  }
}
