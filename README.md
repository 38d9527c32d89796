# Mondio front end: a verified model of its logic

Mondio is a single-page app for dog-sport training. Trainers and their clients use it to
record training sessions, dogs and scores. This project models the parts of it that hold
real logic, and proves what they promise:

- **The activation-code script** (`generate-activation-codes.js`), in `activation_codes.dfy`.
  - It draws an 8-symbol code from a 32-symbol alphabet.
  - It retries against the code table at most 100 times.
  - It creates a batch of codes, where an item that fails does not stop the batch.
  - It checks the count argument and the yes/no answer.
  - The model is imperative, like the script. `generateActivationCode`, `generateUniqueCode`
    and `createActivationCodes` are methods with the script's loops. Each is proved against
    a recursive specification function (`DrawnCode`, `UniqueCode`, `Batch`), and the
    script's guarantees are lemmas about those functions.
  - `Math.random` is an oracle: a function from draw numbers to alphabet indices, plus a
    cursor that counts the draws.
  - The Prisma table is the object `CodeStore`, which holds its records.
  - `Batch` is stated for any per-item search, given the table's rows and the draw
    position. The script's search is `UniqueCodeSearch`, which is `generateUniqueCode`
    over the codes drawn from the oracle. `SoundSearch` is what the batch lemmas need of a
    search, and `UniqueCodeSearchSound` proves that the script's search has it.
- **The dogs page** (`src/pages/Dogs.jsx`), in `dogs.dfy`.
  - Ownership predicates: `canEditDog`, `isOwnDog`, `isClientDog` and `canEdit`.
  - The guard chains of the delete, photo-upload and submit handlers.
  - The edit form and its reset.
  - All of it is pure: each handler maps the page state, plus the browser's or the service's
    answer, to the next state and the one call it makes.
- **The sessions page** (`src/pages/Sessions.jsx`).
  - `sessions.dfy` holds its pure logic:
    - the own and client lists, with the client list sorted stably newest first;
    - the visibility guards for each button;
    - the mapping from a session to the edit form, and from the form to the body it sends;
    - the submit checks;
    - the pairing of entry videos with the entries the server created;
    - the trainer-note check.
  - `sessions_page.dfy` models the page's React state as the class `SessionsPage.Page`, with
    one method per handler. The entry-video loop is the method `PlanEntryUploads`.
- **The registration form** (`src/pages/Register.jsx`), in `register.dfy`: the ordered checks,
  the single `register` call and the resulting view.
- **The custom drop-down** (`src/components/CustomSelect.jsx`), in `custom_select.dfy`:
  selection, option filtering, what clicks do, and the hidden native select.

Shared pieces:
- `common.dfy`: `Option`, `Result`, `filter`, `find`, and the `|| ''` / `|| null` idioms.
- `text.dfy`: JavaScript's `trim` and `toLowerCase`.
- `numbers.dfy`: `parseInt` and integer `toString`, with the round-trip lemma
  `Numbers.ParseIntString`.
- `users.dfy`: the signed-in user and `user?.id || -1`.

The literal at `generate-activation-codes.js:24` has 32 symbols (A–H, J–N, P–Z, 2–9);
`ActivationCodes.SymbolIsCharAt` proves the length is 32.

## Model

| member | source | states |
|---|---|---|
| ActivationCodes.Symbol | generate-activation-codes.js:24-27 | the character picked by any index is in A–H, J–N, P–Z or 2–9 |
| ActivationCodes.SymbolIsCharAt | generate-activation-codes.js:24-27 | the alphabet has 32 characters, and `charAt(k)` is the symbol of the four ranges for every index `k` |
| ActivationCodes.AlphabetFacts | generate-activation-codes.js:22-24 | the alphabet holds none of `0`, `O`, `I`, `1` |
| ActivationCodes.CodeAvoidsConfusables | generate-activation-codes.js:22-29 | no character of a well-formed code is `0`, `O`, `I` or `1` |
| ActivationCodes.DrawnCode | generate-activation-codes.js:24-29 | the code from eight draws is 8 characters long |
| ActivationCodes.DrawnCodeIsCode | generate-activation-codes.js:24-29 | character `i` of a drawn code is the alphabet symbol picked by draw `cursor + i`, so every drawn code is well formed |
| ActivationCodes.GenerateActivationCode | generate-activation-codes.js:21-30 | the loop builds exactly `DrawnCode` and uses 8 draws |
| ActivationCodes.CodeSetMembers | generate-activation-codes.js:33-37 | a code is in the table exactly when some row carries it |
| ActivationCodes.CodeSetConcat | generate-activation-codes.js:73-80 | the codes of two concatenated row lists are the union of their codes |
| ActivationCodes.CodeStore.constructor | generate-activation-codes.js:18 | the table starts with the given records |
| ActivationCodes.CodeStore.CodeExists | generate-activation-codes.js:33-38 | reports true exactly when the code is in the table, and changes nothing |
| ActivationCodes.CodeStore.Create | generate-activation-codes.js:73-78 | appends one unused row for the code and returns it; the table's codes gain exactly that code |
| ActivationCodes.UniqueCodeFromSpec | generate-activation-codes.js:41-61 | from any attempt on: at most 100 checks; an `Ok` code is the last draw, absent from the store, and every earlier draw was present; `Err` only after 100 draws that were all present |
| ActivationCodes.UniqueCodeBounds | generate-activation-codes.js:45-54 | between 1 and 100 existence checks; a returned code is absent from the store, and well formed when every draw is |
| ActivationCodes.CodesAtAllCodes | generate-activation-codes.js:21-30 | every draw position yields a well-formed code |
| ActivationCodes.FirstFreeDrawWins | generate-activation-codes.js:47-60 | if the first K draws are taken and draw K+1 is free (K < 100): exactly K+1 checks, and draw K+1 is returned |
| ActivationCodes.AllDrawsTakenExhausts | generate-activation-codes.js:56-58 | if all 100 draws are taken: failure after exactly 100 checks, and no code |
| ActivationCodes.GenerateUniqueCode | generate-activation-codes.js:41-61 | the `while` loop returns exactly `UniqueCode` for the store's codes, and uses 8 draws per attempt |
| ActivationCodes.UniqueCodeSearchSound | generate-activation-codes.js:41-61 | every run of `generateUniqueCode`, on any table and at any draw position, makes 1 to 100 checks and returns only a well-formed code no row carries |
| ActivationCodes.BatchStepProperties | generate-activation-codes.js:69-85 | each item adds one report line and keeps the earlier ones; a success adds one unused, well-formed row whose code no row of the table carries, initial or created; a failure adds no row |
| ActivationCodes.BatchLog | generate-activation-codes.js:69-87 | a failed item does not stop the batch: one line per item; the rows are the successes in order; at most `count` rows |
| ActivationCodes.BatchStepFresh | generate-activation-codes.js:71-80 | one check-then-insert step keeps the batch's rows fresh and pairwise distinct |
| ActivationCodes.BatchFresh | generate-activation-codes.js:69-87 | the codes of one batch are unused, well formed, absent from the initial table and pairwise distinct |
| ActivationCodes.ScriptCodesFresh | generate-activation-codes.js:41-88 | whatever the draws, the rows the script creates are unused, well formed, new to the table and pairwise distinct |
| ActivationCodes.BatchPrefix | generate-activation-codes.js:69-85 | later items never change what an earlier item reported |
| ActivationCodes.CreateItem | generate-activation-codes.js:70-84 | one round of the loop is exactly one `Batch` step, and the table gains exactly the row it created, if any |
| ActivationCodes.CreateActivationCodes | generate-activation-codes.js:64-88 | the batch loop returns exactly `Batch` for the initial table; the table gains exactly the returned rows, in order; those rows are fresh and pairwise distinct |
| ActivationCodes.AcceptsExactly | generate-activation-codes.js:121 | an answer is accepted iff it is empty, or `y`/`yes` in any letter case |
| ActivationCodes.PlanRunCases | generate-activation-codes.js:130-147 | no argument means 1 code; NaN or a count below 1 is a usage error; above 100 a declined answer cancels; otherwise the parsed count is generated |
| ActivationCodes.NonPositiveCountRefused | generate-activation-codes.js:131-138 | an argument that parses to an integer below 1 is a usage error |
| ActivationCodes.NaNCountRefused | generate-activation-codes.js:131-138 | an argument that starts with neither white space, a sign nor a digit is NaN, and a usage error |
| ActivationCodes.SmallCountGenerates | generate-activation-codes.js:131-150 | a count from 1 to 100 is generated without asking |
| ActivationCodes.LargeCountAsks | generate-activation-codes.js:140-150 | above 100 codes, an accepted answer generates them all, and any other answer cancels the run |
| ActivationCodes.RunScript | generate-activation-codes.js:127-150 | a usage error exits 1 and a cancelled run exits 0, both creating nothing; otherwise exit 0, the codes, report and table are those of `Batch`, and the codes are fresh |
| Text.TrimStart | generate-activation-codes.js:131 | leading white space is dropped: the result is a suffix that starts with no space, after an all-space prefix |
| Text.TrimEnd | src/pages/Register.jsx:29 | trailing white space is dropped: the result is a prefix that ends with no space, before an all-space suffix |
| Text.TrimStartKeeps | generate-activation-codes.js:131 | a string that starts with no white space is left as it is |
| Text.TrimShape | src/pages/Register.jsx:29 | `trim` gives a contiguous piece of the input, and what it cuts away on either side is all white space |
| Text.TrimEnds | src/pages/Register.jsx:29 | a non-empty trimmed string has no white space at either end |
| Text.TrimEmptyIff | src/pages/Register.jsx:29 | a string trims to `''` exactly when it is all white space |
| Text.TrimIdempotent | src/pages/Sessions.jsx:172 | trimming a trimmed string changes nothing |
| Text.Lower | generate-activation-codes.js:121 | `toLowerCase` keeps the length and maps each character on its own |
| Numbers.DigitRun | generate-activation-codes.js:131 | the digit run that `parseInt` reads is a prefix of digits and cannot be extended |
| Numbers.NatString | src/pages/Sessions.jsx:116-117 | `toString` of a natural number prints at least one digit, and nothing but digits |
| Numbers.ParseIntString | src/pages/Sessions.jsx:114-117 | parsing a printed integer gives the integer back |
| Numbers.ParseIntDigits | generate-activation-codes.js:131 | a digit string, even with leading zeros, parses to its value |
| Numbers.ParseIntNegative | generate-activation-codes.js:131 | `-` followed by digits parses to the negated value of the digits |
| Users.EffectiveIdFallback | src/pages/Dogs.jsx:48 | `user?.id \|\| -1` is -1 exactly when there is no user or the id is 0 or -1; otherwise it is the user's id |
| Common.Filter | src/pages/Sessions.jsx:203 | `filter` is never longer than its input |
| Common.FilterMembers | src/pages/Sessions.jsx:203 | `filter` keeps exactly the elements that satisfy the test |
| Common.FilterConcat | src/components/CustomSelect.jsx:71 | filtering distributes over concatenation, so it keeps the order |
| Common.FilterPartition | src/pages/Sessions.jsx:266-268 | a filter and the filter by the negated test together hold every element, with multiplicity |
| Common.FindIndex | src/pages/Dogs.jsx:70 | the index is the first that satisfies the test, and `None` when none does; it is the helper `Common.Find` is built on (the lookup of a dog by id), not a source function of its own |
| Common.Find | src/components/CustomSelect.jsx:64 | `find` yields a value iff some element satisfies the test, and that value is an element that satisfies it |
| Common.FindIsFirst | src/components/CustomSelect.jsx:64 | the found element stands at a position before which no element satisfies the test |
| Dogs.CanEditDogCases | src/pages/Dogs.jsx:46-49 | with a real id, a dog is editable iff that id owns it; with no user or id 0, only dogs owned by -1 are; a null user can never edit a dog whose owner id is non-negative |
| Dogs.EditIgnoresTrainer | src/pages/Dogs.jsx:211-216 | neither the trainer flag nor the dog's trainer ever changes `canEdit` or `canEditDog` |
| Dogs.OwnAndClientExclusive | src/pages/Dogs.jsx:211-214 | no dog is both the user's own and a client's |
| Dogs.CanEditAgreesWithCanEditDog | src/pages/Dogs.jsx:211-216 | `canEdit` implies `canEditDog`; they differ only for a dog owned by -1 when there is no usable id |
| Dogs.DeleteGuards | src/pages/Dogs.jsx:68-92 | `deleteDog(id)` is called iff the dog is listed, the user may edit it, and the deletion is confirmed; an unknown id stops before the permission check; a foreign dog stops before confirmation |
| Dogs.PhotoUploadGuards | src/pages/Dogs.jsx:94-115 | an upload of that file for that dog starts iff the dog is listed and the user may edit it; otherwise it throws `Dog not found` (exactly when no dog has the id) or `Permission denied` |
| Dogs.OpenModalProperties | src/pages/Dogs.jsx:180 | opening the modal changes nothing a save sends, and opening twice is opening once; after a close, the add button shows the empty form with no dog being edited, so its save calls `createDog` and never `updateDog` |
| Dogs.HandleEdit | src/pages/Dogs.jsx:51-66 | for a foreign dog, nothing changes; otherwise the modal opens on that dog, with its name and level in the form |
| Dogs.ChangeFieldLaws | src/pages/Dogs.jsx:345-378 | an input reads back the typed text and every other input keeps its text; writing back the shown text changes nothing; a later change of the same input overrides an earlier one |
| Dogs.Payload | src/pages/Dogs.jsx:130-133 | the body carries the form's name, breed and level unchanged |
| Dogs.PayloadAge | src/pages/Dogs.jsx:132 | an empty age sends null; an age of digits sends its value |
| Dogs.SubmitGuards | src/pages/Dogs.jsx:117-154 | editing a foreign dog resets the page and calls nothing; otherwise `updateDog` for the edited dog or `createDog`, with the form's payload; only a successful call resets the page |
| Dogs.HandleCloseModal | src/pages/Dogs.jsx:156-160 | closing resets the form to empty fields with level `MR1`, and clears the edited dog |
| Dogs.EditThenSubmit | src/pages/Dogs.jsx:51-146 | opening an editable dog and saving it unchanged sends that dog's fields back to `updateDog`, except that age 0 goes back as null |
| Common.OrEmptyOrNull | src/pages/Sessions.jsx:111 | `\|\| ''` undoes `\|\| null`; going the other way loses only `''` versus null |
| Common.FilterAll | src/pages/Sessions.jsx:203 | a filter that every element passes keeps the whole list |
| Sessions.InsertByDatePerm | src/pages/Sessions.jsx:268 | inserting adds exactly that session and keeps every other one, with multiplicity |
| Sessions.InsertByDateSorted | src/pages/Sessions.jsx:268 | inserting into a newest-first list keeps it newest first |
| Sessions.SortByDateDescSorted | src/pages/Sessions.jsx:268 | the sort orders newest first and is a permutation of its input |
| Sessions.InsertByDateStable | src/pages/Sessions.jsx:268 | among the sessions of one date, the inserted one comes first if it has that date, and the others keep their order |
| Sessions.SortByDateDescStable | src/pages/Sessions.jsx:268 | the sort is stable: sessions of one date keep their loaded order |
| Sessions.SessionPartition | src/pages/Sessions.jsx:266-269 | own = the sessions with `userId == (user?.id \|\| -1)`; the client list is empty unless the user is a trainer, and then holds exactly the other sessions, newest first; the two are disjoint and together hold every session |
| Sessions.ClientSessionsStable | src/pages/Sessions.jsx:267-268 | client sessions of one date appear in their loaded order |
| Sessions.DeleteSessionCalls | src/pages/Sessions.jsx:138-143 | with the Delete button shown only to the owner or a trainer (lines 314-336), `deleteSession` is called exactly when one of them confirms, and with that session's id |
| Sessions.DeleteEntryCalls | src/pages/Sessions.jsx:152-157 | with the entry delete button shown only to the owner (line 442), `deleteEntry` is called exactly when the owner confirms, with that session's and that entry's ids; a trainer who does not own the session never deletes entries |
| Sessions.SessionControls | src/pages/Sessions.jsx:314-346 | Edit and entry delete are shown iff the user owns the session; Delete is shown iff owner or trainer; a trainer who is not the owner sees Delete but not Edit, and deletes on confirmation |
| Sessions.TrainerNoteControl | src/pages/Sessions.jsx:468 | the add-note control shows iff the user is a trainer and the entry's trainer note is missing or empty |
| Sessions.TrainerNoteGuard | src/pages/Sessions.jsx:166-172 | a note made only of white space calls nothing; any other note is sent for that session and entry, trimmed, non-empty, with no space at either end |
| Sessions.BlankForm | src/pages/Sessions.jsx:182-194 | the reset form has no dog, level `MR1`, and exactly one blank row |
| Sessions.SetField | src/pages/Sessions.jsx:80-84 | writing a field of an entry row: that field reads back the new value, and every other field is kept |
| Sessions.EditForm | src/pages/Sessions.jsx:107-124 | a session with no entries gets exactly one blank row; otherwise one row per entry, in order |
| Sessions.EntriesPayload | src/pages/Sessions.jsx:215-219 | one payload entry per valid row, in order |
| Sessions.BuildPayloadCases | src/pages/Sessions.jsx:198-220 | an empty dog is refused first; then a form with no row having both training and score is refused; otherwise the body has the form's fields and one entry per valid row |
| Sessions.ValidEntriesAppend | src/pages/Sessions.jsx:203 | the valid rows keep the form's order |
| Sessions.ScoreValueCases | src/pages/Sessions.jsx:217 | a score of digits is sent as its value; an unreadable score is sent as 0 |
| Sessions.ScorePrinted | src/pages/Sessions.jsx:217 | a score field showing a printed integer sends that integer, negative ones included |
| Sessions.EditThenSubmit | src/pages/Sessions.jsx:107-220 | editing a session with entries and saving it unchanged sends back its own dog, level, trainings, scores and notes; a session without entries cannot be saved unchanged |
| Sessions.EditRowsPayload | src/pages/Sessions.jsx:114-219 | the rows built from a session's entries map back to those entries' trainings, scores and notes |
| Sessions.EntryUploadsExact | src/pages/Sessions.jsx:245-254 | each upload pairs a valid row's file with the created entry at the same index, and every such row gets one |
| Sessions.NoCreatedNoUploads | src/pages/Sessions.jsx:247 | with no created entries there are no entry uploads |
| Sessions.SubmitCalls | src/pages/Sessions.jsx:196-256 | nothing is called unless both checks pass; then update or create with the checked body; after a save, the session video upload iff a file was chosen, and the entry uploads as paired |
| Sessions.ToggledProperties | src/pages/Sessions.jsx:63-71 | toggling flips only that id's membership, and toggling twice restores the set |
| SessionsPage.SetDetailLaws | src/pages/Sessions.jsx:689-737 | the dog, date, level and notes inputs read back the typed text, leave the other inputs, the rows and the video alone; writing back the shown text changes nothing; a later change of the same input overrides an earlier one |
| SessionsPage.PlanEntryUploads | src/pages/Sessions.jsx:245-254 | the `for` loop plans exactly the uploads `EntryUploads` describes |
| SessionsPage.Page.constructor | src/pages/Sessions.jsx:11-29 | the page starts closed, with nothing expanded or visible, no note box, and the blank form |
| SessionsPage.Page.ToggleSession | src/pages/Sessions.jsx:63-71 | the expanded set becomes its toggle at the id, and nothing else changes |
| SessionsPage.Page.ShowVideo | src/pages/Sessions.jsx:412-416 | adds the video's key, and nothing else changes |
| SessionsPage.Page.HideVideo | src/pages/Sessions.jsx:379-383 | removes the video's key, and nothing else changes |
| SessionsPage.Page.OpenModal | src/pages/Sessions.jsx:585 | opens the modal, and nothing else changes |
| SessionsPage.Page.AddEntry | src/pages/Sessions.jsx:73-78 | appends exactly one blank row, keeping the others, and nothing else changes |
| SessionsPage.Page.ChangeEntry | src/pages/Sessions.jsx:80-84 | only that field of that row changes |
| SessionsPage.Page.ChangeEntryVideo | src/pages/Sessions.jsx:86-90 | only that row's video file changes |
| SessionsPage.Page.ChangeDetail | src/pages/Sessions.jsx:689-737 | only that form field changes |
| SessionsPage.Page.ChangeSessionVideo | src/pages/Sessions.jsx:92-94 | only the session video file changes |
| SessionsPage.Page.Edit | src/pages/Sessions.jsx:96-131 | opens the modal on that session with `EditForm`, and nothing else changes |
| SessionsPage.Page.CloseModal | src/pages/Sessions.jsx:182-194 | closes the modal, clears the edited session, resets the form, and nothing else changes |
| SessionsPage.Page.Submit | src/pages/Sessions.jsx:196-263 | returns exactly `SubmitResult`; a refused or failed submit changes nothing, and a saved one closes and resets the modal |
| SessionsPage.Page.StartNote | src/pages/Sessions.jsx:496 | opens an empty note box for that entry |
| SessionsPage.Page.ChangeNote | src/pages/Sessions.jsx:477 | only the note text changes |
| SessionsPage.Page.CancelNote | src/pages/Sessions.jsx:487 | closes the note box |
| SessionsPage.Page.AddTrainerNote | src/pages/Sessions.jsx:166-180 | makes exactly the call `TrainerNoteCall` gives for the typed note; only a successful call closes the note box |
| SessionsPage.ChangeEntryOnly | src/pages/Sessions.jsx:80-84 | after a row change, that field holds the value; the row's other fields and every other row are unchanged |
| SessionsPage.PlannedUploadsBounded | src/pages/Sessions.jsx:245-254 | there are never more uploads than valid rows, and none when the server created no entries |
| Register.Utf16Length | src/pages/Register.jsx:24 | `length` counts UTF-16 units, never fewer than the characters |
| Register.ValidationOrder | src/pages/Register.jsx:19-32 | a mismatch wins whatever else holds; a short password is reported only after the passwords match; a blank code only after that; and the form passes iff none of the three applies |
| Register.Utf16LengthBmp | src/pages/Register.jsx:24-27 | for text within the Basic Multilingual Plane, `length` is the number of characters |
| Register.SubmitOutcome | src/pages/Register.jsx:15-43 | the error is cleared, then `register` is called iff the checks pass, with email, password and the trimmed (non-empty) code; a refusal shows its message; success goes to `/login` with no error; failure shows `result.error` |
| Register.MismatchNeverCalls | src/pages/Register.jsx:19-22 | mismatched passwords show the mismatch message and call nothing |
| CustomSelect.ButtonTextCases | src/components/CustomSelect.jsx:64-94 | the button shows the label of the first option carrying the value, or the placeholder iff no option carries it |
| CustomSelect.FilteredOptionsProperties | src/components/CustomSelect.jsx:71 | listed iff enabled or carrying the current value, so a disabled current selection is listed; the order of the options is kept |
| CustomSelect.SelectThenShow | src/components/CustomSelect.jsx:64-69 | choosing an option closes the dropdown, and once its value is stored the button shows that option's label, or that of the first option with the same value |
| CustomSelect.ToggleClickProperties | src/components/CustomSelect.jsx:78 | a disabled control stays as it is; an enabled one flips; two clicks restore it |
| CustomSelect.DropdownProperties | src/components/CustomSelect.jsx:153-188 | with nothing listed, the "no options" message replaces the buttons; otherwise one button per listed option, in order, marked selected iff it carries the value; a click emits its value and closes, unless the option is disabled |
| CustomSelect.HiddenSelectProperties | src/components/CustomSelect.jsx:195-208 | rendered iff `required`: a blank placeholder option, then every option, disabled ones included |

## Left out

- Network, database and service failures other than the ones the handlers branch on are
  not modelled. No Prisma error, thrown `create`, or `process.exit(1)` from the outer
  `catch` of `main` is modelled. Each service call is an action: only its arguments, and
  the answer the handler branches on, are modelled.
- Console output, `alert` texts and `displayCodes` are not modelled. The script's
  per-item console lines become the report `log`.
- Rendering, styling, the loading spinners and React's update timing are not modelled.
- CustomSelect's resize, click-outside and scroll-into-view effects are not modelled, nor
  its mobile bottom sheet.
- The data loads (`loadData`, `loadUser`, `loadDogs`) and their `Promise.all` are not
  modelled; the loaded lists are parameters.
- Dates are integers, and the sort compares them. Parsing and formatting with `new Date`,
  `toISOString` and `toLocaleDateString` are not modelled. `Sessions.EditForm` and
  `SessionsPage.Page.Edit` take the formatted date as a parameter, and `BlankForm` takes
  today's date.
- Numbers.ParseInt: reads every input in base 10. `parseInt` without a radix, as the pages
  call it (`src/pages/Sessions.jsx:211-217`, `src/pages/Dogs.jsx:132`), reads a `0x` or `0X`
  prefix as hexadecimal, so `"0x1A"` gives 26 there and 0 here; that difference is not
  modelled.
- Numbers.ParseInt: reads arbitrarily long digit runs exactly; JavaScript's loss of
  precision beyond 2^53 is not modelled.
- Text.Lower: lower-cases only A–Z, because every answer the script accepts is ASCII;
  the other Unicode case mappings of `toLowerCase` are not modelled. `Text.IsSpace` is
  ECMAScript's fixed white-space set, not a Unicode category lookup.
- SessionsPage.Page.ChangeEntry: `handleEntryChange` writes into the row object that the
  shallow copy still shares with the previous state. Rows are values here, so this
  aliasing is not modelled; the page never reads the old state afterwards.
- Uploads of session and entry videos that fail are only logged by the page. Their
  failure is therefore not modelled.
- `useAuth().register` comes from `src/contexts/AuthContext`, which is not part of this
  model. Its answer, `{ success, error }`, is the parameter `Register.AuthResult`.
- The video keys `session-<id>` and `entry-<id>` are a two-constructor datatype rather
  than strings; the two prefixes keep them apart in the same way.
