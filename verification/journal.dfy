/** The journal's data model: one daily entry, the form that creates it,
    and the identifier facts the store relies on. */
module Journal {

  datatype Option<T> = None | Some(value: T)

  /** The five integer wellness metrics an entry records. */
  datatype Metric = Sleep | Stress | Symptoms | Mood | Engagement

  /** One daily journal record. `date` is an opaque label; the metrics are
      unconstrained integers; `drugNames` and `notes` are free text. */
  datatype Entry = Entry(
    id: int,
    date: string,
    sleep: int,
    stress: int,
    symptoms: int,
    mood: int,
    engagement: int,
    drugNames: string,
    notes: string)
  {
    /** The value this entry records for metric `m`. */
    function Value(m: Metric): int {
      match m
      case Sleep => sleep
      case Stress => stress
      case Symptoms => symptoms
      case Mood => mood
      case Engagement => engagement
    }
  }

  /** The fields the entry form posts. The metrics are already integers;
      the two free-text fields may be absent. */
  datatype Submission = Submission(
    date: string,
    sleep: int,
    stress: int,
    symptoms: int,
    mood: int,
    engagement: int,
    drugNames: Option<string>,
    notes: Option<string>)

  /** JavaScript's `text || ''` on an optional string: an absent value and the
      empty string both give the empty string, any other text is kept. */
  function OrEmpty(text: Option<string>): (r: string)
    ensures r == "" <==> text.None? || text == Some("")
    ensures text.Some? ==> r == text.value
  {
    match text
    case None => ""
    case Some(s) => s
  }

  /** The entry built from a submission under identifier `id`. */
  function NewEntry(id: int, form: Submission): (e: Entry)
    ensures e.id == id && e.date == form.date
    ensures e.Value(Sleep) == form.sleep && e.Value(Stress) == form.stress
    ensures e.Value(Symptoms) == form.symptoms && e.Value(Mood) == form.mood
    ensures e.Value(Engagement) == form.engagement
    ensures form.drugNames.None? ==> e.drugNames == ""
    ensures form.notes.None? ==> e.notes == ""
    ensures form.drugNames.Some? ==> e.drugNames == form.drugNames.value
    ensures form.notes.Some? ==> e.notes == form.notes.value
  {
    Entry(id, form.date, form.sleep, form.stress, form.symptoms, form.mood, form.engagement,
          OrEmpty(form.drugNames), OrEmpty(form.notes))
  }

  /** Some entry of `log` carries identifier `id`. */
  predicate HasId(log: seq<Entry>, id: int) {
    exists i :: 0 <= i < |log| && log[i].id == id
  }

  /** No two entries of `log` share an identifier. */
  predicate UniqueIds(log: seq<Entry>) {
    forall i, j :: 0 <= i < j < |log| ==> log[i].id != log[j].id
  }

  /** Identifiers grow strictly along the log, as creation-time identifiers
      from a strictly increasing clock would. */
  predicate IdsIncreasing(log: seq<Entry>) {
    forall i, j :: 0 <= i < j < |log| ==> log[i].id < log[j].id
  }

}
