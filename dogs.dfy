/** The dogs page: who may change a dog, and the guard chains of its handlers. Every handler
    is a value-level step from the page state (and the answers of the browser and the
    services) to the next page state and the one service call it makes, if any. */
module Dogs {
  import opened Common
  import opened Users
  import Numbers

  datatype Dog = Dog(id: int, userId: int, trainerId: Option<int>, name: string,
                     breed: Option<string>, age: Option<int>, level: string)

  /** `canEditDog`: the dog's owner is the effective id of the signed-in user. */
  predicate CanEditDog(user: Option<User>, dog: Dog) {
    dog.userId == EffectiveId(user)
  }

  /** `isOwnDog`: a user with a truthy id who owns the dog. */
  predicate IsOwnDog(user: Option<User>, dog: Dog) {
    user.Some? && user.value.id != 0 && dog.userId == user.value.id
  }

  /** `isClientDog`: a trainer looking at a dog they train but do not own. */
  predicate IsClientDog(user: Option<User>, dog: Dog) {
    IsTrainer(user) && dog.trainerId == Some(user.value.id) && dog.userId != user.value.id
  }

  /** `canEdit`, the flag that shows the edit, delete and photo controls on a card. */
  predicate CanEdit(user: Option<User>, dog: Dog) {
    IsOwnDog(user, dog)
  }

  /** Without a user (or with id 0) the only dogs `canEditDog` accepts are those owned by -1;
      with a real id it accepts exactly that owner's dogs. */
  lemma CanEditDogCases(user: Option<User>, dog: Dog)
    ensures user.Some? && user.value.id != 0 ==> (CanEditDog(user, dog) <==> dog.userId == user.value.id)
    ensures (user.None? || user.value.id == 0) ==> (CanEditDog(user, dog) <==> dog.userId == -1)
    ensures user.None? && dog.userId >= 0 ==> !CanEditDog(user, dog)
  {
  }

  /** The trainer flag and the dog's trainer never change whether a user may edit it. */
  lemma EditIgnoresTrainer(id: int, t1: bool, t2: bool, dog: Dog, trainer: Option<int>)
    ensures CanEdit(Some(User(id, t1)), dog) == CanEdit(Some(User(id, t2)), dog.(trainerId := trainer))
    ensures CanEditDog(Some(User(id, t1)), dog) == CanEditDog(Some(User(id, t2)), dog.(trainerId := trainer))
  {
  }

  /** A card is never both the user's own dog and a client's dog. */
  lemma OwnAndClientExclusive(user: Option<User>, dog: Dog)
    ensures !(IsOwnDog(user, dog) && IsClientDog(user, dog))
  {
  }

  /** The card flag and the handlers' check agree for every signed-in user with a real id;
      they differ only for a dog owned by -1 when no usable id is known. */
  lemma CanEditAgreesWithCanEditDog(user: Option<User>, dog: Dog)
    ensures CanEdit(user, dog) ==> CanEditDog(user, dog)
    ensures CanEditDog(user, dog) && !CanEdit(user, dog) <==>
              (user.None? || user.value.id == 0) && dog.userId == -1
  {
  }

  /** `dogs.find(d => d.id === id)`. */
  function FindDog(dogs: seq<Dog>, id: int): Option<Dog> {
    Find(dogs, (d: Dog) => d.id == id)
  }

  /** Where `handleDelete` stops: each early return, or the call to `deleteDog`. */
  datatype DeleteOutcome = DeleteNotFound | DeleteDenied | DeleteDeclined | DeleteCalled(id: int)

  /** `handleDelete(id)`; `confirmed` is the answer `window.confirm` would give. */
  function HandleDelete(user: Option<User>, dogs: seq<Dog>, id: int, confirmed: bool): DeleteOutcome {
    match FindDog(dogs, id)
    case None => DeleteNotFound
    case Some(dog) =>
      if !CanEditDog(user, dog) then DeleteDenied
      else if !confirmed then DeleteDeclined
      else DeleteCalled(id)
  }

  /** `deleteDog` is called, with the id asked for, exactly for a listed dog the user may edit
      whose deletion was confirmed; an unknown id stops before the permission check and a
      foreign dog before the confirmation. */
  lemma DeleteGuards(user: Option<User>, dogs: seq<Dog>, id: int, confirmed: bool)
    ensures HandleDelete(user, dogs, id, confirmed) == DeleteCalled(id) <==>
              (exists d :: d in dogs && d.id == id) && CanEditDog(user, FindDog(dogs, id).value) && confirmed
    ensures HandleDelete(user, dogs, id, confirmed).DeleteCalled? ==> HandleDelete(user, dogs, id, confirmed).id == id
    ensures (forall d :: d in dogs ==> d.id != id) ==> HandleDelete(user, dogs, id, confirmed) == DeleteNotFound
    ensures (exists d :: d in dogs && d.id == id) && !CanEditDog(user, FindDog(dogs, id).value) ==>
              HandleDelete(user, dogs, id, true) == DeleteDenied && HandleDelete(user, dogs, id, false) == DeleteDenied
  {
  }

  /** The two errors `handlePhotoUpload` throws before uploading anything. */
  datatype UploadError = DogNotFound | PermissionDenied

  function UploadErrorMessage(e: UploadError): string {
    match e
    case DogNotFound => "Dog not found"
    case PermissionDenied => "Permission denied"
  }

  /** The call to `uploadDogPhoto`. */
  datatype PhotoUpload = PhotoUpload(dogId: int, file: File)

  /** `handlePhotoUpload(file, dogId)`: the upload it starts, or the error it throws first. */
  function HandlePhotoUpload(user: Option<User>, dogs: seq<Dog>, file: File, dogId: int): Result<PhotoUpload, UploadError> {
    match FindDog(dogs, dogId)
    case None => Err(DogNotFound)
    case Some(dog) => if !CanEditDog(user, dog) then Err(PermissionDenied) else Ok(PhotoUpload(dogId, file))
  }

  /** An upload starts, for that dog and that file, exactly when the dog is listed and the
      user may edit it; otherwise the error says which guard stopped it. */
  lemma PhotoUploadGuards(user: Option<User>, dogs: seq<Dog>, file: File, dogId: int)
    ensures HandlePhotoUpload(user, dogs, file, dogId).Ok? <==>
              FindDog(dogs, dogId).Some? && CanEditDog(user, FindDog(dogs, dogId).value)
    ensures HandlePhotoUpload(user, dogs, file, dogId).Ok? ==> HandlePhotoUpload(user, dogs, file, dogId).value == PhotoUpload(dogId, file)
    ensures HandlePhotoUpload(user, dogs, file, dogId) == Err(DogNotFound) <==> forall d :: d in dogs ==> d.id != dogId
    ensures HandlePhotoUpload(user, dogs, file, dogId).Err? ==>
              UploadErrorMessage(HandlePhotoUpload(user, dogs, file, dogId).error) in {"Dog not found", "Permission denied"}
  {
  }

  /** The modal's form fields, kept as the text the inputs show. */
  datatype DogForm = DogForm(name: string, breed: string, age: string, level: string)

  const EmptyForm := DogForm("", "", "", "MR1")

  datatype DogsPage = DogsPage(showModal: bool, editingDog: Option<Dog>, form: DogForm)

  /** The state every reset returns to: modal closed, nothing being edited, empty form. */
  const ClosedPage := DogsPage(false, None, EmptyForm)

  /** The "add dog" buttons open the modal and change nothing else. */
  function OpenModal(page: DogsPage): (r: DogsPage)
    ensures r.showModal && r.editingDog == page.editingDog && r.form == page.form
  {
    page.(showModal := true)
  }

  /** `dog.age || ''`: a missing age and the falsy age 0 both show as an empty field. */
  function AgeText(age: Option<int>): string {
    if age.Some? && age.value != 0 then Numbers.IntString(age.value) else ""
  }

  /** `handleEdit(dog)`: for a dog the user may edit, the modal opens filled from the dog;
      for any other dog nothing changes. */
  function HandleEdit(page: DogsPage, user: Option<User>, dog: Dog): (r: DogsPage)
    ensures !CanEditDog(user, dog) ==> r == page
    ensures CanEditDog(user, dog) ==> r.showModal && r.editingDog == Some(dog) && r.form.name == dog.name && r.form.level == dog.level
  {
    if !CanEditDog(user, dog) then page
    else DogsPage(true, Some(dog), DogForm(dog.name, OrEmpty(dog.breed), AgeText(dog.age), dog.level))
  }

  datatype FormField = NameField | BreedField | AgeField | LevelField

  /** One input's `onChange`: `setFormData({ ...formData, [field]: value })`. */
  function ChangeField(form: DogForm, field: FormField, value: string): (r: DogForm)
    ensures field == NameField ==> r == form.(name := value)
    ensures field == BreedField ==> r == form.(breed := value)
    ensures field == AgeField ==> r == form.(age := value)
    ensures field == LevelField ==> r == form.(level := value)
  {
    match field
    case NameField => form.(name := value)
    case BreedField => form.(breed := value)
    case AgeField => form.(age := value)
    case LevelField => form.(level := value)
  }

  /** The text an input of the form shows. */
  function FormValue(form: DogForm, field: FormField): string {
    match field
    case NameField => form.name
    case BreedField => form.breed
    case AgeField => form.age
    case LevelField => form.level
  }

  /** An input's change reads back as the typed text, leaves every other input as it was,
      writing back what an input shows changes nothing, and a later change of the same input
      overrides an earlier one. */
  lemma ChangeFieldLaws(form: DogForm, field: FormField, other: FormField, v: string, w: string)
    ensures FormValue(ChangeField(form, field, v), field) == v
    ensures other != field ==> FormValue(ChangeField(form, field, v), other) == FormValue(form, other)
    ensures ChangeField(form, field, FormValue(form, field)) == form
    ensures ChangeField(ChangeField(form, field, v), field, w) == ChangeField(form, field, w)
  {
  }

  /** The body sent to `createDog`/`updateDog`: the form with the age parsed. */
  datatype DogPayload = DogPayload(name: string, breed: string, age: Option<int>, level: string)

  /** `{ ...formData, age: formData.age ? parseInt(formData.age) : null }`, where a NaN age is
      `None` as well. */
  function Payload(form: DogForm): (r: DogPayload)
    ensures r.name == form.name && r.breed == form.breed && r.level == form.level
  {
    DogPayload(form.name, form.breed, if form.age == "" then None else Numbers.ParseInt(form.age), form.level)
  }

  /** An empty age field sends null; a field of digits sends their value. */
  lemma PayloadAge(form: DogForm)
    ensures form.age == "" ==> Payload(form).age.None?
    ensures form.age != "" && Numbers.AllDigits(form.age) ==> Payload(form).age == Some(Numbers.DigitsValue(form.age))
  {
    if form.age != "" && Numbers.AllDigits(form.age) {
      Numbers.ParseIntDigits(form.age);
    }
  }

  datatype DogCall = NoCall | UpdateDog(id: int, data: DogPayload) | CreateDog(data: DogPayload)

  datatype Submitted = Submitted(page: DogsPage, call: DogCall)

  /** `handleSubmit`; `saved` says whether the service call resolved. A failed call leaves
      the page as it was, with the modal still open. */
  function HandleSubmit(page: DogsPage, user: Option<User>, saved: bool): Submitted {
    if page.editingDog.Some? && !CanEditDog(user, page.editingDog.value) then Submitted(ClosedPage, NoCall)
    else
      var data := Payload(page.form);
      var call := if page.editingDog.Some? then UpdateDog(page.editingDog.value.id, data) else CreateDog(data);
      Submitted(if saved then ClosedPage else page, call)
  }

  /** Editing a foreign dog resets the page and calls no service; otherwise the form goes to
      `updateDog` for the edited dog or to `createDog`, and only a successful call resets. */
  lemma SubmitGuards(page: DogsPage, user: Option<User>, saved: bool)
    ensures page.editingDog.Some? && !CanEditDog(user, page.editingDog.value) ==>
              HandleSubmit(page, user, saved) == Submitted(ClosedPage, NoCall)
    ensures HandleSubmit(page, user, saved).call.NoCall? <==>
              page.editingDog.Some? && !CanEditDog(user, page.editingDog.value)
    ensures page.editingDog.Some? && CanEditDog(user, page.editingDog.value) ==>
              HandleSubmit(page, user, saved).call == UpdateDog(page.editingDog.value.id, Payload(page.form))
    ensures page.editingDog.None? ==> HandleSubmit(page, user, saved).call == CreateDog(Payload(page.form))
    ensures !HandleSubmit(page, user, saved).call.NoCall? ==>
              HandleSubmit(page, user, saved).page == (if saved then ClosedPage else page)
  {
  }

  /** `handleCloseModal`. */
  function HandleCloseModal(page: DogsPage): (r: DogsPage)
    ensures !r.showModal && r.editingDog.None? && r.form == EmptyForm
  {
    ClosedPage
  }

  /** Opening a dog for editing and saving it unchanged sends that dog's own fields back to
      `updateDog`, except that an age of 0 goes back as null. */
  lemma EditThenSubmit(page: DogsPage, user: Option<User>, dog: Dog)
    requires CanEditDog(user, dog)
    ensures HandleSubmit(HandleEdit(page, user, dog), user, true) ==
              Submitted(ClosedPage, UpdateDog(dog.id, DogPayload(dog.name, OrEmpty(dog.breed),
                                                                 if dog.age == Some(0) then None else dog.age, dog.level)))
  {
    if dog.age.Some? && dog.age.value != 0 {
      Numbers.ParseIntString(dog.age.value);
    }
  }

  /** Opening the modal changes nothing that a save sends, and opening it twice is opening
      it once. After a close, the add button shows the empty form with no dog being edited,
      so saving it creates a dog and never updates one. */
  lemma OpenModalProperties(page: DogsPage, user: Option<User>, saved: bool)
    ensures OpenModal(OpenModal(page)) == OpenModal(page)
    ensures HandleSubmit(OpenModal(page), user, saved).call == HandleSubmit(page, user, saved).call
    ensures var added := OpenModal(HandleCloseModal(page));
              && added == DogsPage(true, None, EmptyForm)
              && HandleSubmit(added, user, saved).call == CreateDog(DogPayload("", "", None, "MR1"))
  {
  }
}
