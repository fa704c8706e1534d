/** The booking form: its fixed option tables, the per-field error flags, validation, reset and
    the construction of the new appointment's data on submit. */
module BookingForm {
  import opened Wrappers
  import Text

  /** The service types offered by the service selector. */
  const Services: seq<string> := [
    "Lavado básico", "Lavado completo", "Lavado exterior", "Lavado y encerado",
    "Limpieza de interiores", "Lavado premium", "Limpieza de tapicería"
  ]

  /** The start times offered by the time selector. */
  const Times: seq<string> := [
    "09:00", "09:30", "10:00", "10:30", "11:00", "11:30",
    "12:00", "12:30", "13:00", "13:30", "14:00", "14:30",
    "15:00", "15:30", "16:00", "16:30", "17:00", "17:30"
  ]

  /** A clock label `HH:MM` with two-digit fields. */
  predicate IsClockLabel(t: string) {
    |t| == 5 && Text.IsDigit(t[0]) && Text.IsDigit(t[1]) && t[2] == ':'
    && Text.IsDigit(t[3]) && Text.IsDigit(t[4])
  }

  /** Minutes after midnight of a clock label. */
  function MinutesOf(t: string): int
    requires IsClockLabel(t)
  {
    (Text.DigitValue(t[0]) * 10 + Text.DigitValue(t[1])) * 60
    + Text.DigitValue(t[3]) * 10 + Text.DigitValue(t[4])
  }

  /** The time table is the eighteen half hours from 09:00 to 17:30, in order. */
  lemma TimesAreHalfHours()
    ensures |Times| == 18
    ensures forall i :: 0 <= i < |Times| ==> IsClockLabel(Times[i]) && MinutesOf(Times[i]) == 540 + 30 * i
    ensures Times[0] == "09:00" && Times[17] == "17:30"
  {
  }

  /** The labels strictly increase, so no time is offered twice. */
  lemma TimesStrictlyIncrease()
    ensures forall i, j :: 0 <= i < j < |Times| ==>
      IsClockLabel(Times[i]) && IsClockLabel(Times[j]) && MinutesOf(Times[i]) < MinutesOf(Times[j])
  {
    TimesAreHalfHours();
  }

  /** The four text fields of the form. */
  datatype Field = ClientName | ServiceType | Time | Location

  datatype FormData = FormData(clientName: string, serviceType: string, time: string, location: string)
  {
    function Get(f: Field): string {
      match f
      case ClientName => clientName
      case ServiceType => serviceType
      case Time => time
      case Location => location
    }

    /** `{ ...formData, [name]: value }`. */
    function With(f: Field, value: string): (d: FormData)
      ensures d.Get(f) == value
      ensures forall g :: g != f ==> d.Get(g) == Get(g)
    {
      match f
      case ClientName => this.(clientName := value)
      case ServiceType => this.(serviceType := value)
      case Time => this.(time := value)
      case Location => this.(location := value)
    }
  }

  /** One error flag per field. */
  datatype Errors = Errors(clientName: bool, serviceType: bool, time: bool, location: bool)
  {
    function Get(f: Field): bool {
      match f
      case ClientName => clientName
      case ServiceType => serviceType
      case Time => time
      case Location => location
    }

    /** `{ ...errors, [name]: false }`. */
    function Cleared(f: Field): (e: Errors)
      ensures !e.Get(f)
      ensures forall g :: g != f ==> e.Get(g) == Get(g)
    {
      match f
      case ClientName => this.(clientName := false)
      case ServiceType => this.(serviceType := false)
      case Time => this.(time := false)
      case Location => this.(location := false)
    }

    predicate Any() {
      clientName || serviceType || time || location
    }
  }

  const EmptyData := FormData("", "", "", "")
  const NoErrors := Errors(false, false, false, false)

  /** The form's state: the text fields, the service location ("workshop" or "home"), the
      picked day (absent once the calendar selection is cleared) and the error flags. */
  datatype Form = Form(data: FormData, serviceLocation: string, date: Option<int>, errors: Errors)

  /** The state the form opens with on day `today`. */
  function InitialForm(today: int): Form {
    Form(EmptyData, "workshop", Some(today), NoErrors)
  }

  /** A text input changed: the field takes the value; its error is cleared only when the value
      is non-empty. */
  function HandleInputChange(form: Form, f: Field, value: string): (g: Form)
    ensures g.data.Get(f) == value
    ensures forall h :: h != f ==> g.data.Get(h) == form.data.Get(h)
    ensures value != "" ==> !g.errors.Get(f)
    ensures value == "" ==> g.errors == form.errors
    ensures forall h :: h != f ==> g.errors.Get(h) == form.errors.Get(h)
    ensures g.serviceLocation == form.serviceLocation && g.date == form.date
  {
    form.(data := form.data.With(f, value),
          errors := if value != "" then form.errors.Cleared(f) else form.errors)
  }

  /** A selector changed: the field takes the value and its error is cleared, whatever the value. */
  function HandleSelectChange(form: Form, f: Field, value: string): (g: Form)
    ensures g.data.Get(f) == value
    ensures forall h :: h != f ==> g.data.Get(h) == form.data.Get(h)
    ensures !g.errors.Get(f)
    ensures forall h :: h != f ==> g.errors.Get(h) == form.errors.Get(h)
    ensures g.serviceLocation == form.serviceLocation && g.date == form.date
  {
    form.(data := form.data.With(f, value), errors := form.errors.Cleared(f))
  }

  /** `validateForm`'s error flags: a required field that is empty is in error; the address is
      required only for a home service. */
  function Validate(data: FormData, serviceLocation: string): (e: Errors)
    ensures forall f :: f != Location ==> (e.Get(f) <==> data.Get(f) == "")
    ensures e.location <==> serviceLocation == "home" && data.location == ""
  {
    Errors(data.clientName == "", data.serviceType == "", data.time == "",
           serviceLocation == "home" && data.location == "")
  }

  /** `validateForm`'s verdict: no flag raised. */
  predicate IsValid(data: FormData, serviceLocation: string) {
    !Validate(data, serviceLocation).Any()
  }

  /** The form is valid exactly when the name, service and time are filled in and, for a home
      service, the address is too. */
  lemma ValidIff(data: FormData, serviceLocation: string)
    ensures IsValid(data, serviceLocation) <==>
      && data.clientName != "" && data.serviceType != "" && data.time != ""
      && (serviceLocation == "home" ==> data.location != "")
  {
  }

  /** Outside home mode the address plays no part in validation. */
  lemma WorkshopIgnoresLocation(data: FormData, serviceLocation: string, location: string)
    requires serviceLocation != "home"
    ensures IsValid(data.With(Location, location), serviceLocation) <==> IsValid(data, serviceLocation)
  {
  }

  /** `resetForm`: empty fields, workshop mode, today's date; the error flags are left as they are. */
  function ResetForm(form: Form, today: int): (g: Form)
    ensures forall f :: g.data.Get(f) == ""
    ensures g.serviceLocation == "workshop" && g.date == Some(today)
    ensures g.errors == form.errors
  {
    Form(EmptyData, "workshop", Some(today), form.errors)
  }

  /** The data handed over for a new appointment. */
  datatype NewAppointmentData = NewAppointmentData(
    clientName: string, date: int, time: string, serviceType: string,
    location: string, isHomeService: bool)

  /** The outcome of a submit: the form afterwards, and the appointment data when one is built. */
  datatype Submission = Submission(form: Form, created: Option<NewAppointmentData>)

  /** `handleSubmit`: the error flags are always replaced by the validation's; data is built, and
      the form reset, only when the form is valid and a day is picked. The address is passed
      through as typed even in workshop mode. */
  function HandleSubmit(form: Form, today: int): (s: Submission)
    ensures s.created.Some? <==> IsValid(form.data, form.serviceLocation) && form.date.Some?
    ensures s.created.Some? ==>
      && s.created.value.clientName == form.data.clientName
      && s.created.value.serviceType == form.data.serviceType
      && s.created.value.time == form.data.time
      && s.created.value.location == form.data.location
      && form.date.Some? && s.created.value.date == form.date.value
      && (s.created.value.isHomeService <==> form.serviceLocation == "home")
    ensures s.created.None? ==> s.form == form.(errors := Validate(form.data, form.serviceLocation))
    ensures s.form.errors == Validate(form.data, form.serviceLocation)
  {
    var checked := form.(errors := Validate(form.data, form.serviceLocation));
    if IsValid(form.data, form.serviceLocation) && form.date.Some? then
      var d := form.data;
      Submission(ResetForm(checked, today),
                 Some(NewAppointmentData(d.clientName, form.date.value, d.time, d.serviceType,
                                         d.location, form.serviceLocation == "home")))
    else
      Submission(checked, None)
  }

  /** A successful submit leaves the form exactly as it opens: the validation that let it
      through cleared every flag, and the reset restored the rest. */
  lemma SubmitRestoresInitialForm(form: Form, today: int)
    requires HandleSubmit(form, today).created.Some?
    ensures HandleSubmit(form, today).form == InitialForm(today)
  {
  }
}
