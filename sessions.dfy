/** The training-sessions page, its pure part: the split of the loaded sessions into the
    user's own and (for trainers) the clients', the guards that show each control, and the
    mapping between a session, the edit form and the body sent to the server. */
module Sessions {
  import opened Common
  import opened Users
  import Text
  import Numbers

  /** A session date is kept as the instant it denotes, an integer; only its order matters. */
  datatype Entry = Entry(id: int, trainingId: int, score: int, notes: Option<string>,
                         trainerNote: Option<string>, videoUrl: Option<string>)

  datatype Session = Session(id: int, userId: int, dogId: int, date: int, level: string,
                             notes: Option<string>, videoUrl: Option<string>, entries: seq<Entry>)

  /** `session.userId === (user?.id || -1)`. */
  predicate IsOwner(user: Option<User>, session: Session) {
    session.userId == EffectiveId(user)
  }

  // ---------------------------------------------------------------------------------
  // Own and client sessions

  predicate DateDescending(s: seq<Session>) {
    forall i, j :: 0 <= i < j < |s| ==> s[i].date >= s[j].date
  }

  /** Puts `x` before the first element that is not later than it, so `x` stays ahead of
      every element of equal date: the step of a stable sort, newest first. */
  function InsertByDate(x: Session, s: seq<Session>): seq<Session> {
    if s == [] then [x]
    else if s[0].date <= x.date then [x] + s
    else [s[0]] + InsertByDate(x, s[1..])
  }

  /** `sort((a, b) => new Date(b.date) - new Date(a.date))`: a stable sort, newest first. */
  function SortByDateDesc(s: seq<Session>): seq<Session> {
    if s == [] then [] else InsertByDate(s[0], SortByDateDesc(s[1..]))
  }

  /** The selector of the sessions held on one date. */
  function OnDate(d: int): Session -> bool {
    (t: Session) => t.date == d
  }

  /** Inserting adds `x` and keeps every other session. */
  lemma {:induction false} InsertByDatePerm(x: Session, s: seq<Session>)
    ensures multiset(InsertByDate(x, s)) == multiset(s) + multiset{x}
  {
    if s != [] && s[0].date > x.date {
      InsertByDatePerm(x, s[1..]);
      assert s == [s[0]] + s[1..];
    }
  }

  /** In a newest-first list nothing after the head is later than the head. */
  lemma HeadLatest(s: seq<Session>)
    requires s != [] && DateDescending(s)
    ensures forall y :: y in s[1..] ==> y.date <= s[0].date
  {
    forall y | y in s[1..]
      ensures y.date <= s[0].date
    {
      var k :| 0 <= k < |s| - 1 && s[1..][k] == y;
      assert s[k + 1] == y;
    }
  }

  lemma ConsDescending(y: Session, rest: seq<Session>)
    requires DateDescending(rest)
    requires forall j :: 0 <= j < |rest| ==> rest[j].date <= y.date
    ensures DateDescending([y] + rest)
  {
    assert forall j :: 0 < j < |rest| + 1 ==> ([y] + rest)[j] == rest[j - 1];
  }

  lemma {:induction false} InsertByDateSorted(x: Session, s: seq<Session>)
    requires DateDescending(s)
    ensures DateDescending(InsertByDate(x, s))
  {
    if s == [] {
    } else if s[0].date <= x.date {
      HeadLatest(s);
      ConsDescending(x, s);
    } else {
      var rest := InsertByDate(x, s[1..]);
      assert DateDescending(s[1..]);
      InsertByDateSorted(x, s[1..]);
      InsertByDatePerm(x, s[1..]);
      HeadLatest(s);
      forall j | 0 <= j < |rest|
        ensures rest[j].date <= s[0].date
      {
        assert rest[j] in multiset(rest);
      }
      ConsDescending(s[0], rest);
    }
  }

  /** The sort orders its input newest first and neither loses nor adds a session. */
  lemma {:induction false} SortByDateDescSorted(s: seq<Session>)
    ensures DateDescending(SortByDateDesc(s))
    ensures multiset(SortByDateDesc(s)) == multiset(s)
  {
    if s != [] {
      SortByDateDescSorted(s[1..]);
      InsertByDateSorted(s[0], SortByDateDesc(s[1..]));
      InsertByDatePerm(s[0], SortByDateDesc(s[1..]));
      assert s == [s[0]] + s[1..];
    }
  }

  lemma {:induction false} InsertByDateStable(x: Session, s: seq<Session>, d: int)
    ensures Filter(InsertByDate(x, s), OnDate(d)) == (if x.date == d then [x] else []) + Filter(s, OnDate(d))
  {
    var p := OnDate(d);
    if s == [] || s[0].date <= x.date {
      assert s == [] ==> InsertByDate(x, s) == [x] + s;
      FilterCons(x, s, p);
    } else {
      var rest := InsertByDate(x, s[1..]);
      var tail := Filter(s[1..], p);
      assert InsertByDate(x, s) == [s[0]] + rest;
      assert s == [s[0]] + s[1..];
      InsertByDateStable(x, s[1..], d);
      FilterCons(s[0], rest, p);
      FilterCons(s[0], s[1..], p);
      if x.date == d {
        assert !p(s[0]);
        assert Filter(rest, p) == [x] + tail;
        assert Filter(s, p) == tail;
      } else {
        assert Filter(rest, p) == tail;
      }
    }
  }

  /** Stability: sessions held on the same date keep the order in which they were loaded. */
  lemma {:induction false} SortByDateDescStable(s: seq<Session>, d: int)
    ensures Filter(SortByDateDesc(s), OnDate(d)) == Filter(s, OnDate(d))
  {
    if s != [] {
      SortByDateDescStable(s[1..], d);
      InsertByDateStable(s[0], SortByDateDesc(s[1..]), d);
    }
  }

  /** The selector of the sessions the user owns. */
  function Owned(user: Option<User>): Session -> bool {
    (t: Session) => IsOwner(user, t)
  }

  /** `ownSessions`: the loaded sessions the user owns, in the order loaded. */
  function OwnSessions(user: Option<User>, sessions: seq<Session>): seq<Session> {
    Filter(sessions, Owned(user))
  }

  /** The loaded sessions the user does not own, in the order loaded. */
  function NotOwnSessions(user: Option<User>, sessions: seq<Session>): seq<Session> {
    Filter(sessions, Not(Owned(user)))
  }

  /** `clientSessions`: for a trainer, the sessions the user does not own, newest first;
      for anyone else, none. */
  function ClientSessions(user: Option<User>, sessions: seq<Session>): seq<Session> {
    if IsTrainer(user) then SortByDateDesc(NotOwnSessions(user, sessions)) else []
  }

  /** The own list holds exactly the owned sessions; the client list is empty unless the
      user is a trainer, and then holds exactly the others, newest first, so the two lists
      are disjoint and together hold every loaded session. */
  lemma SessionPartition(user: Option<User>, sessions: seq<Session>)
    ensures forall t :: t in OwnSessions(user, sessions) <==> t in sessions && IsOwner(user, t)
    ensures !IsTrainer(user) ==> ClientSessions(user, sessions) == []
    ensures IsTrainer(user) ==> forall t :: t in ClientSessions(user, sessions) <==> t in sessions && !IsOwner(user, t)
    ensures IsTrainer(user) ==> DateDescending(ClientSessions(user, sessions))
    ensures IsTrainer(user) ==>
              multiset(OwnSessions(user, sessions)) + multiset(ClientSessions(user, sessions)) == multiset(sessions)
    ensures forall t :: t in OwnSessions(user, sessions) ==> t !in ClientSessions(user, sessions)
  {
    var others := NotOwnSessions(user, sessions);
    SortByDateDescSorted(others);
    assert forall t :: t in SortByDateDesc(others) <==> t in multiset(others);
    FilterMembers(sessions, Owned(user));
    FilterMembers(sessions, Not(Owned(user)));
    FilterPartition(sessions, Owned(user));
  }

  /** Client sessions held on the same date appear in the order they were loaded. */
  lemma ClientSessionsStable(user: Option<User>, sessions: seq<Session>, d: int)
    requires IsTrainer(user)
    ensures Filter(ClientSessions(user, sessions), OnDate(d)) == Filter(NotOwnSessions(user, sessions), OnDate(d))
  {
    SortByDateDescStable(NotOwnSessions(user, sessions), d);
  }

  // ---------------------------------------------------------------------------------
  // Visibility guards on a session card

  /** The group of owner controls is rendered for the owner or for any trainer. */
  predicate ShowOwnerControls(user: Option<User>, session: Session) {
    IsOwner(user, session) || IsTrainer(user)
  }

  /** The Edit button sits inside that group and asks for the owner again. */
  predicate ShowEditButton(user: Option<User>, session: Session) {
    ShowOwnerControls(user, session) && IsOwner(user, session)
  }

  /** The Delete button sits inside that group with no further condition. */
  predicate ShowDeleteButton(user: Option<User>, session: Session) {
    ShowOwnerControls(user, session)
  }

  /** The delete button of one entry in the expanded card. */
  predicate ShowEntryDelete(user: Option<User>, session: Session) {
    IsOwner(user, session)
  }

  /** `entry.trainerNote` read as a condition. */
  predicate HasTrainerNote(entry: Entry) {
    entry.trainerNote.Some? && entry.trainerNote.value != ""
  }

  /** The "add trainer note" control under one entry. */
  predicate ShowAddTrainerNote(user: Option<User>, entry: Entry) {
    IsTrainer(user) && !HasTrainerNote(entry)
  }

  /** `handleDelete(id)`: the id passed to `deleteSession`, when the user confirms. */
  function DeleteSessionRequest(id: int, confirmed: bool): (r: Option<int>)
    ensures r.Some? <==> confirmed
    ensures r.Some? ==> r.value == id
  {
    if confirmed then Some(id) else None
  }

  /** `handleDeleteEntry(sessionId, entryId, name)`: the pair passed to `deleteEntry`, when
      the user confirms. */
  function DeleteEntryRequest(sessionId: int, entryId: int, confirmed: bool): (r: Option<(int, int)>)
    ensures r.Some? <==> confirmed
    ensures r.Some? ==> r.value == (sessionId, entryId)
  {
    if confirmed then Some((sessionId, entryId)) else None
  }

  /** A click on a session card's Delete button, answered by the confirmation dialog; a card
      that does not show the button offers nothing to click. */
  function DeleteSessionClick(user: Option<User>, session: Session, confirmed: bool): Option<int> {
    if ShowDeleteButton(user, session) then DeleteSessionRequest(session.id, confirmed) else None
  }

  /** A click on the delete button of one entry of a session's card, answered by the dialog. */
  function DeleteEntryClick(user: Option<User>, session: Session, entryId: int, confirmed: bool): Option<(int, int)> {
    if ShowEntryDelete(user, session) then DeleteEntryRequest(session.id, entryId, confirmed) else None
  }

  /** `deleteSession` is called for a session exactly when its owner or a trainer confirms
      the deletion, and then with that session's id; a declined dialog calls nothing. */
  lemma DeleteSessionCalls(user: Option<User>, session: Session, confirmed: bool)
    ensures DeleteSessionClick(user, session, confirmed).Some? <==>
              (IsOwner(user, session) || IsTrainer(user)) && confirmed
    ensures DeleteSessionClick(user, session, confirmed).Some? ==>
              DeleteSessionClick(user, session, confirmed).value == session.id
  {
  }

  /** `deleteEntry` is called exactly when the session's owner confirms, with the ids of that
      session and that entry; a trainer who does not own the session cannot delete entries. */
  lemma DeleteEntryCalls(user: Option<User>, session: Session, entryId: int, confirmed: bool)
    ensures DeleteEntryClick(user, session, entryId, confirmed).Some? <==> IsOwner(user, session) && confirmed
    ensures DeleteEntryClick(user, session, entryId, confirmed).Some? ==>
              DeleteEntryClick(user, session, entryId, confirmed).value == (session.id, entryId)
    ensures IsTrainer(user) && !IsOwner(user, session) ==> DeleteEntryClick(user, session, entryId, confirmed).None?
  {
  }

  /** Editing and deleting entries is for the owner only; deleting a whole session is also
      offered to every trainer, who then deletes a client's session on confirmation. */
  lemma SessionControls(user: Option<User>, session: Session)
    ensures ShowEditButton(user, session) <==> IsOwner(user, session)
    ensures ShowEntryDelete(user, session) <==> IsOwner(user, session)
    ensures ShowDeleteButton(user, session) <==> IsOwner(user, session) || IsTrainer(user)
    ensures ShowEditButton(user, session) ==> ShowDeleteButton(user, session)
    ensures IsTrainer(user) && !IsOwner(user, session) ==>
              ShowDeleteButton(user, session) && !ShowEditButton(user, session)
              && DeleteSessionRequest(session.id, true) == Some(session.id)
  {
  }

  /** The note control is offered exactly to trainers, and only under entries without a
      (non-empty) trainer note. */
  lemma TrainerNoteControl(user: Option<User>, entry: Entry)
    ensures ShowAddTrainerNote(user, entry) <==>
              user.Some? && user.value.isTrainer && (entry.trainerNote.None? || entry.trainerNote == Some(""))
  {
  }

  // ---------------------------------------------------------------------------------
  // Trainer notes

  datatype NoteCall = NoteCall(sessionId: int, entryId: int, note: string)

  /** `handleAddTrainerNote`: the call to `addTrainerNote`, or none when the note is blank. */
  function TrainerNoteCall(sessionId: int, entryId: int, note: string): Option<NoteCall> {
    if note == "" || Text.Trim(note) == "" then None
    else Some(NoteCall(sessionId, entryId, Text.Trim(note)))
  }

  /** A note made only of white space (the empty one included) calls nothing; any other
      note is sent for that entry, trimmed, non-empty and without surrounding white space. */
  lemma TrainerNoteGuard(sessionId: int, entryId: int, note: string)
    ensures TrainerNoteCall(sessionId, entryId, note).None? <==> Text.AllSpace(note)
    ensures TrainerNoteCall(sessionId, entryId, note).Some? ==>
              TrainerNoteCall(sessionId, entryId, note).value == NoteCall(sessionId, entryId, Text.Trim(note))
    ensures TrainerNoteCall(sessionId, entryId, note).Some? ==> SentNoteShape(Text.Trim(note))
  {
    var t := Text.Trim(note);
    Text.TrimEmptyIff(note);
    if t != "" {
      Text.TrimEnds(note);
      Text.TrimIdempotent(note);
      assert SentNoteShape(t);
    }
  }

  /** A sent note is non-empty, neither starts nor ends with white space, and trims to itself. */
  predicate SentNoteShape(t: string) {
    t != "" && !Text.IsSpace(t[0]) && !Text.IsSpace(t[|t| - 1]) && Text.Trim(t) == t
  }

  // ---------------------------------------------------------------------------------
  // The session form

  /** One entry row of the form, kept as the text its inputs show. */
  datatype FormEntry = FormEntry(trainingId: string, score: string, notes: string, videoFile: Option<File>,
                                 existingVideoUrl: Option<string>, entryId: Option<int>)

  const BlankEntry := FormEntry("", "", "", None, None, None)

  datatype SessionForm = SessionForm(dogId: string, date: string, level: string, notes: string, videoFile: Option<File>,
                                     existingVideoUrl: Option<string>, entries: seq<FormEntry>)

  /** The form every reset returns to, dated `today` (the date part of the current instant). */
  function BlankForm(today: string): (r: SessionForm)
    ensures r.entries == [BlankEntry] && r.dogId == "" && r.level == "MR1"
  {
    SessionForm("", today, "MR1", "", None, None, [BlankEntry])
  }

  /** The three text inputs of an entry row that `handleEntryChange` writes. */
  datatype EntryField = TrainingField | ScoreField | NotesField

  function FieldValue(e: FormEntry, f: EntryField): string {
    match f
    case TrainingField => e.trainingId
    case ScoreField => e.score
    case NotesField => e.notes
  }

  /** `entry[field] = value`: the field reads back as written, every other field of the
      entry keeps its value. */
  function SetField(e: FormEntry, f: EntryField, v: string): (r: FormEntry)
    ensures FieldValue(r, f) == v
    ensures forall g :: g != f ==> FieldValue(r, g) == FieldValue(e, g)
    ensures r.videoFile == e.videoFile && r.existingVideoUrl == e.existingVideoUrl && r.entryId == e.entryId
  {
    match f
    case TrainingField => e.(trainingId := v)
    case ScoreField => e.(score := v)
    case NotesField => e.(notes := v)
  }

  /** The form row `handleEdit` builds from one stored entry. */
  function EditEntry(e: Entry): FormEntry {
    FormEntry(Numbers.IntString(e.trainingId), Numbers.IntString(e.score), OrEmpty(e.notes), None,
              OrNull(OrEmpty(e.videoUrl)), Some(e.id))
  }

  /** `newFormData` in `handleEdit`; `dateText` is the session date as `YYYY-MM-DD`. */
  function EditForm(session: Session, dateText: string): (r: SessionForm)
    ensures session.entries == [] ==> r.entries == [BlankEntry]
    ensures session.entries != [] ==> |r.entries| == |session.entries|
    ensures forall i :: 0 <= i < |session.entries| ==> r.entries[i] == EditEntry(session.entries[i])
  {
    var rows := if session.entries == [] then [BlankEntry]
                else seq(|session.entries|, i requires 0 <= i < |session.entries| => EditEntry(session.entries[i]));
    SessionForm(Numbers.IntString(session.dogId), dateText, session.level, OrEmpty(session.notes), None,
                OrNull(OrEmpty(session.videoUrl)), rows)
  }

  // ---------------------------------------------------------------------------------
  // Submitting the form

  /** `e.trainingId && e.score`. */
  predicate IsValidEntry(e: FormEntry) {
    e.trainingId != "" && e.score != ""
  }

  /** `validEntries`: the rows with both a training and a score, in form order. */
  function ValidEntries(entries: seq<FormEntry>): seq<FormEntry> {
    Filter(entries, IsValidEntry)
  }

  /** `parseInt(e.score) || 0`: an unreadable score counts as 0. */
  function ScoreValue(score: string): int {
    match Numbers.ParseInt(score)
    case Some(n) => n
    case None => 0
  }

  datatype EntryPayload = EntryPayload(trainingId: Option<int>, score: int, notes: Option<string>)

  datatype SessionPayload = SessionPayload(dogId: Option<int>, date: string, level: string, notes: Option<string>,
                                           entries: seq<EntryPayload>)

  function EntryPayloadOf(e: FormEntry): EntryPayload {
    EntryPayload(Numbers.ParseInt(e.trainingId), ScoreValue(e.score), OrNull(e.notes))
  }

  /** `validEntries.map(...)`. */
  function EntriesPayload(valid: seq<FormEntry>): (r: seq<EntryPayload>)
    ensures |r| == |valid|
    ensures forall i :: 0 <= i < |valid| ==> r[i] == EntryPayloadOf(valid[i])
  {
    seq(|valid|, i requires 0 <= i < |valid| => EntryPayloadOf(valid[i]))
  }

  /** The two alerts that stop `handleSubmit` before any call. */
  datatype SubmitError = MissingDog | NoValidEntries

  /** The validation and mapping of `handleSubmit`: the body to send, or the first check failed. */
  function BuildPayload(form: SessionForm): Result<SessionPayload, SubmitError> {
    if form.dogId == "" then Err(MissingDog)
    else
      var valid := ValidEntries(form.entries);
      if valid == [] then Err(NoValidEntries)
      else Ok(SessionPayload(Numbers.ParseInt(form.dogId), form.date, form.level, OrNull(form.notes), EntriesPayload(valid)))
  }

  /** The dog is checked first; then a form with no valid row is refused; otherwise the body
      carries the form's own fields and one entry per valid row, in order. */
  lemma BuildPayloadCases(form: SessionForm)
    ensures BuildPayload(form) == Err(MissingDog) <==> form.dogId == ""
    ensures BuildPayload(form) == Err(NoValidEntries) <==>
              form.dogId != "" && forall e :: e in form.entries ==> !IsValidEntry(e)
    ensures BuildPayload(form).Ok? ==>
              var p := BuildPayload(form).value;
              p.dogId == Numbers.ParseInt(form.dogId) && p.date == form.date && p.level == form.level
              && p.notes == OrNull(form.notes) && |p.entries| >= 1
              && p.entries == EntriesPayload(ValidEntries(form.entries))
  {
    FilterMembers(form.entries, IsValidEntry);
    if form.dogId != "" && ValidEntries(form.entries) != [] {
      var e := ValidEntries(form.entries)[0];
      assert e in ValidEntries(form.entries);
    }
  }

  /** Adding a row to the form adds its payload entry at the end when it is valid and
      nothing otherwise: the valid rows keep the form's order. */
  lemma ValidEntriesAppend(entries: seq<FormEntry>, e: FormEntry)
    ensures ValidEntries(entries + [e]) == ValidEntries(entries) + (if IsValidEntry(e) then [e] else [])
  {
    FilterConcat(entries, [e], IsValidEntry);
  }

  /** A score typed as digits is sent as its value; a score that does not start with a
      number is sent as 0. */
  lemma ScoreValueCases(score: string)
    ensures score != "" && Numbers.AllDigits(score) ==> ScoreValue(score) == Numbers.DigitsValue(score)
    ensures Numbers.ParseInt(score).None? ==> ScoreValue(score) == 0
  {
    if score != "" && Numbers.AllDigits(score) {
      Numbers.ParseIntDigits(score);
    }
  }

  /** A score showing a printed integer is sent as that integer, negative ones included. */
  lemma ScorePrinted(n: int)
    ensures ScoreValue(Numbers.IntString(n)) == n
  {
    Numbers.ParseIntString(n);
  }

  /** The body that saving a session straight after opening it for editing sends. */
  function StoredPayload(session: Session, dateText: string): SessionPayload {
    SessionPayload(Some(session.dogId), dateText, session.level, OrNull(OrEmpty(session.notes)),
                   seq(|session.entries|, i requires 0 <= i < |session.entries| =>
                         EntryPayload(Some(session.entries[i].trainingId), session.entries[i].score,
                                      OrNull(OrEmpty(session.entries[i].notes)))))
  }

  /** Opening a session for editing and saving it unchanged sends back its own dog, level,
      trainings and scores (notes of `''` go back as null); a session without entries
      cannot be saved unchanged, because its one blank row is not valid. */
  lemma EditThenSubmit(session: Session, dateText: string)
    ensures session.entries != [] ==> BuildPayload(EditForm(session, dateText)) == Ok(StoredPayload(session, dateText))
    ensures session.entries == [] ==> BuildPayload(EditForm(session, dateText)) == Err(NoValidEntries)
  {
    var form := EditForm(session, dateText);
    Numbers.ParseIntString(session.dogId);
    if session.entries == [] {
      assert ValidEntries(form.entries) == [];
    } else {
      FilterAll(form.entries, IsValidEntry);
      EditRowsPayload(session, dateText);
    }
  }

  lemma EditRowsPayload(session: Session, dateText: string)
    requires session.entries != []
    ensures EntriesPayload(EditForm(session, dateText).entries) == StoredPayload(session, dateText).entries
  {
    var want := StoredPayload(session, dateText).entries;
    var got := EntriesPayload(EditForm(session, dateText).entries);
    forall i | 0 <= i < |got|
      ensures got[i] == want[i]
    {
      Numbers.ParseIntString(session.entries[i].trainingId);
      Numbers.ParseIntString(session.entries[i].score);
    }
  }

  // ---------------------------------------------------------------------------------
  // Entry videos after a save

  /** The call to `uploadEntryVideo`. */
  datatype EntryUpload = EntryUpload(entryId: int, file: File)

  /** Whether row `i` of the valid rows gets its video uploaded: it has a file and the
      server returned an entry at that position. */
  predicate UploadsAt(valid: seq<FormEntry>, createdIds: seq<int>, i: nat)
    requires i < |valid|
  {
    valid[i].videoFile.Some? && i < |createdIds|
  }

  /** The uploads for the first `n` valid rows, in row order. */
  function EntryUploads(valid: seq<FormEntry>, createdIds: seq<int>, n: nat): seq<EntryUpload>
    requires n <= |valid|
  {
    if n == 0 then []
    else EntryUploads(valid, createdIds, n - 1)
         + (if UploadsAt(valid, createdIds, n - 1) then [EntryUpload(createdIds[n - 1], valid[n - 1].videoFile.value)] else [])
  }

  /** Every upload pairs a valid row's file with the created entry at the same position, and
      every row with a file and a created entry gets exactly such an upload. */
  lemma {:induction false} EntryUploadsExact(valid: seq<FormEntry>, createdIds: seq<int>, n: nat)
    requires n <= |valid|
    ensures |EntryUploads(valid, createdIds, n)| <= n
    ensures forall u :: u in EntryUploads(valid, createdIds, n) <==>
              exists i :: 0 <= i < n && UploadsAt(valid, createdIds, i)
                          && u == EntryUpload(createdIds[i], valid[i].videoFile.value)
  {
    if n > 0 {
      EntryUploadsExact(valid, createdIds, n - 1);
    }
  }

  /** No server entries, no entry uploads. */
  lemma {:induction false} NoCreatedNoUploads(valid: seq<FormEntry>, n: nat)
    requires n <= |valid|
    ensures EntryUploads(valid, [], n) == []
  {
    if n > 0 {
      NoCreatedNoUploads(valid, n - 1);
    }
  }

  // ---------------------------------------------------------------------------------
  // The whole submit

  datatype SaveCall = CreateSession(data: SessionPayload) | UpdateSession(id: int, data: SessionPayload)

  /** What the create or update call answered: a failure, or the saved session's id and the
      ids of its entries in the order the server returned them. */
  datatype SaveResponse = SaveFailed | Saved(sessionId: int, createdIds: seq<int>)

  /** The call to `uploadSessionVideo`. */
  datatype SessionUpload = SessionUpload(sessionId: int, file: File)

  /** What one submit does: stop at an alert, or make the save call and, once it succeeded,
      the uploads. Failed uploads are only logged, so they change nothing here. */
  datatype Submission =
    | Refused(error: SubmitError)
    | SaveOnly(call: SaveCall)
    | SavedAndUploaded(call: SaveCall, sessionVideo: Option<SessionUpload>, entryUploads: seq<EntryUpload>)

  /** The save call for a checked body: an update of the session being edited, else a create. */
  function SaveCallFor(editing: Option<Session>, data: SessionPayload): SaveCall {
    if editing.Some? then UpdateSession(editing.value.id, data) else CreateSession(data)
  }

  /** `handleSubmit` as a whole, for a given answer of the save call. */
  function SubmitResult(form: SessionForm, editing: Option<Session>, response: SaveResponse): Submission {
    match BuildPayload(form)
    case Err(e) => Refused(e)
    case Ok(data) =>
      var call := SaveCallFor(editing, data);
      match response
      case SaveFailed => SaveOnly(call)
      case Saved(sid, ids) =>
        var valid := ValidEntries(form.entries);
        SavedAndUploaded(call, if form.videoFile.Some? then Some(SessionUpload(sid, form.videoFile.value)) else None,
                         EntryUploads(valid, ids, |valid|))
  }

  /** A submit calls nothing unless the form passes both checks; then it updates the edited
      session or creates one with the checked body, uploads the session video to the saved
      session when a file was chosen, and uploads each valid row's video to the created entry
      at the same position. */
  lemma SubmitCalls(form: SessionForm, editing: Option<Session>, response: SaveResponse)
    ensures SubmitResult(form, editing, response).Refused? <==> BuildPayload(form).Err?
    ensures SubmitResult(form, editing, response).Refused? ==> SubmitResult(form, editing, response).error == BuildPayload(form).error
    ensures !SubmitResult(form, editing, response).Refused? ==>
              var call := SubmitResult(form, editing, response).call;
              call.data == BuildPayload(form).value
              && (call.UpdateSession? <==> editing.Some?)
              && (call.UpdateSession? ==> call.id == editing.value.id)
    ensures SubmitResult(form, editing, response).SavedAndUploaded? ==>
              var r := SubmitResult(form, editing, response);
              (r.sessionVideo.Some? <==> form.videoFile.Some?)
              && (r.sessionVideo.Some? ==> r.sessionVideo.value == SessionUpload(response.sessionId, form.videoFile.value))
              && forall u :: u in r.entryUploads <==>
                   exists i :: 0 <= i < |ValidEntries(form.entries)| && UploadsAt(ValidEntries(form.entries), response.createdIds, i)
                               && u == EntryUpload(response.createdIds[i], ValidEntries(form.entries)[i].videoFile.value)
  {
    var valid := ValidEntries(form.entries);
    if response.Saved? {
      EntryUploadsExact(valid, response.createdIds, |valid|);
    }
  }

  // ---------------------------------------------------------------------------------
  // Expanded sessions and visible videos

  /** The copy-then-add-or-delete of `toggleSession`. */
  function Toggled<T>(s: set<T>, x: T): set<T> {
    if x in s then s - {x} else s + {x}
  }

  /** Toggling flips the membership of that one element, leaves every other one alone, and
      toggling twice gives the set back. */
  lemma ToggledProperties<T>(s: set<T>, x: T)
    ensures x in Toggled(s, x) <==> x !in s
    ensures forall y :: y != x ==> (y in Toggled(s, x) <==> y in s)
    ensures Toggled(Toggled(s, x), x) == s
  {
  }

  /** The keys `session-<id>` and `entry-<id>` of the visible-videos set. */
  datatype VideoKey = SessionVideo(sessionId: int) | EntryVideo(entryId: int)
}
