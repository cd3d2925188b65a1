/** The interaction record (`historySchema`): required fields, the status
    enumeration and the two defaults, applied when a record is created and
    checked when it is saved. */
module HistorySchema {
  import opened Common

  /** The `statut` enumeration. */
  datatype Status = EnCours | Terminee | EnAttente

  function StatusName(s: Status): string {
    match s
    case EnCours => "en_cours"
    case Terminee => "terminee"
    case EnAttente => "en_attente"
  }

  /** The enum validator: only the three listed names are accepted. */
  function ParseStatus(name: string): (r: Option<Status>)
    ensures r.Some? ==> StatusName(r.value) == name
    ensures r.None? ==> forall s :: StatusName(s) != name
  {
    if name == "en_cours" then Some(EnCours)
    else if name == "terminee" then Some(Terminee)
    else if name == "en_attente" then Some(EnAttente)
    else None
  }

  /** What a caller hands to `new History({...})`: any field may be absent. */
  datatype RecordInput = RecordInput(
    userId: Option<UserId>,
    question: Option<string>,
    reponse: Option<string>,
    date: Option<nat>,
    typeDemarche: Option<string>,
    statut: Option<string>)

  /** A stored record; `date` is a timestamp. */
  datatype Record = Record(
    id: RecordId,
    userId: UserId,
    question: string,
    reponse: string,
    date: nat,
    typeDemarche: string,
    statut: Status)

  /** The schema paths, in declaration order. */
  datatype Path = UserIdPath | QuestionPath | ReponsePath | TypeDemarchePath | StatutPath

  /** A required string path is satisfied only by a non-empty string. */
  predicate PresentString(s: Option<string>) {
    s.Some? && s.value != ""
  }

  /** The paths whose validator fails, in schema order. */
  function Failures(input: RecordInput): seq<Path> {
    (if input.userId.None? then [UserIdPath] else [])
    + (if !PresentString(input.question) then [QuestionPath] else [])
    + (if !PresentString(input.reponse) then [ReponsePath] else [])
    + (if !PresentString(input.typeDemarche) then [TypeDemarchePath] else [])
    + (if input.statut.Some? && ParseStatus(input.statut.value).None? then [StatutPath] else [])
  }

  /** Construct a record with defaults (`date` is the creation time, `statut`
      is "en_cours") and validate it: the result is a record exactly when
      every required path holds a value and `statut`, if given, is one of
      the enumeration; every supplied value is kept as given. */
  function Create(input: RecordInput, id: RecordId, now: nat): (r: Result<Record, seq<Path>>)
    ensures r.Ok? <==>
      input.userId.Some? && PresentString(input.question) && PresentString(input.reponse)
      && PresentString(input.typeDemarche)
      && (input.statut.Some? ==> input.statut.value in {"en_cours", "terminee", "en_attente"})
    ensures r.Ok? ==>
      && r.value.id == id
      && Some(r.value.userId) == input.userId
      && Some(r.value.question) == input.question
      && Some(r.value.reponse) == input.reponse
      && Some(r.value.typeDemarche) == input.typeDemarche
      && r.value.date == (if input.date.Some? then input.date.value else now)
      && (input.statut.Some? ==> StatusName(r.value.statut) == input.statut.value)
      && (input.statut.None? ==> r.value.statut == EnCours)
    ensures r.Err? ==> r.error != [] && (forall p :: p in r.error ==> p in Failures(input))
  {
    var failures := Failures(input);
    if failures != [] then Err(failures)
    else
      Ok(Record(
        id,
        input.userId.value,
        input.question.value,
        input.reponse.value,
        if input.date.Some? then input.date.value else now,
        input.typeDemarche.value,
        if input.statut.Some? then ParseStatus(input.statut.value).value else EnCours))
  }

  /** Each required path on its own: leaving it out is a validation failure
      naming that path. */
  lemma MissingRequiredFails(input: RecordInput, id: RecordId, now: nat)
    requires input.userId.None? || !PresentString(input.question)
          || !PresentString(input.reponse) || !PresentString(input.typeDemarche)
    ensures Create(input, id, now).Err?
    ensures input.userId.None? ==> UserIdPath in Create(input, id, now).error
    ensures !PresentString(input.question) ==> QuestionPath in Create(input, id, now).error
    ensures !PresentString(input.reponse) ==> ReponsePath in Create(input, id, now).error
    ensures !PresentString(input.typeDemarche) ==> TypeDemarchePath in Create(input, id, now).error
  {
  }
}
