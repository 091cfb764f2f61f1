/** The teacher form (`TeacherModal`): a required name, a required subject,
    a required weekly hour limit in 1..40 when it is a number, and an
    optional free-text list of unavailable days. */
module TeacherModal {
  import opened Common
  import opened JsString
  import opened Entities
  import opened Forms

  /** The form's text fields; the subject is the selected option's value. */
  datatype Form = Form(nama: string, mapelId: string, jamMaks: string, hariTidakBisa: string)

  /** What the form hands to `onSave`; `None` stands for undefined. */
  datatype Payload = Payload(nama: string, mapelId: JsNumber, jamMaks: JsNumber, hariTidakBisa: Option<string>)

  const NamaField := "nama"
  const MapelIdField := "mapel_id"
  const JamMaksField := "jam_maks"
  const NamaRequired := "Nama guru wajib diisi"
  const MapelIdRequired := "Mata pelajaran wajib dipilih"
  const JamMaksRequired := "Jam maksimal wajib diisi"
  const JamMaksRange := "Jam maksimal harus antara 1-40"

  /** The form prefilled from a stored teacher. */
  function FormFor(t: Teacher): (f: Form)
    ensures f.nama == t.nama
    ensures f.mapelId != [] && ParseNumber(f.mapelId) == Num(t.mapelId)
    ensures f.jamMaks != [] && ParseNumber(f.jamMaks) == Num(t.jamMaks)
    ensures f.hariTidakBisa == OrEmpty(t.hariTidakBisa)
  {
    RenderedRange(t.mapelId, 1, 40);
    RenderedRange(t.jamMaks, 1, 40);
    EmptyField();
    Form(t.nama, IntToString(t.mapelId), IntToString(t.jamMaks), OrEmpty(t.hariTidakBisa))
  }

  /** The error messages by field; the form is accepted when there are none.
      An empty hour limit gets the required message, a number outside 1..40
      the range message. */
  function Validate(f: Form): (errors: map<string, string>)
    ensures errors.Keys <= {NamaField, MapelIdField, JamMaksField}
    ensures NamaField in errors <==> Blank(f.nama)
    ensures MapelIdField in errors <==> f.mapelId == []
    ensures JamMaksField in errors <==> f.jamMaks == [] || OutOfRange(f.jamMaks, 1, 40)
    ensures NamaField in errors ==> errors[NamaField] == NamaRequired
    ensures MapelIdField in errors ==> errors[MapelIdField] == MapelIdRequired
    ensures JamMaksField in errors ==>
              errors[JamMaksField] == if f.jamMaks == [] then JamMaksRequired else JamMaksRange
  {
    var named: map<string, string> := if Blank(f.nama) then map[NamaField := NamaRequired] else map[];
    var subject := if f.mapelId == [] then named[MapelIdField := MapelIdRequired] else named;
    if f.jamMaks == [] then subject[JamMaksField := JamMaksRequired]
    else if OutOfRange(f.jamMaks, 1, 40) then subject[JamMaksField := JamMaksRange]
    else subject
  }

  /** The payload built from an accepted form. The saved name is already
      trimmed, and empty only when the typed name is blank; the optional
      text is never saved as "" and prefills back as it was typed. */
  function PayloadOf(f: Form): (p: Payload)
    ensures p.nama == Trim(f.nama)
    ensures p.mapelId == ParseNumber(f.mapelId) && p.jamMaks == ParseNumber(f.jamMaks)
    ensures p.hariTidakBisa == OrUndefined(f.hariTidakBisa)
    ensures Trim(p.nama) == p.nama && (p.nama == [] <==> Blank(f.nama))
    ensures OrEmpty(p.hariTidakBisa) == f.hariTidakBisa && p.hariTidakBisa != Some([])
  {
    TrimIdempotent(f.nama);
    Payload(Trim(f.nama), ParseNumber(f.mapelId), ParseNumber(f.jamMaks), OrUndefined(f.hariTidakBisa))
  }

  /** Submitting: nothing is saved unless validation leaves no error. */
  function HandleSubmit(f: Form): (r: Option<Payload>)
    ensures r.None? <==> |Validate(f)| != 0
    ensures r.Some? ==> r.value == PayloadOf(f)
  {
    if |Validate(f)| != 0 then None else Some(PayloadOf(f))
  }

  /** A form is saved exactly when its name is not blank, a subject is
      chosen, and its hour limit is filled in and is either not a number or
      a number in 1..40. */
  lemma {:induction false} SubmitIff(f: Form)
    ensures HandleSubmit(f).Some? <==>
              && !Blank(f.nama) && f.mapelId != [] && f.jamMaks != []
              && (ParseNumber(f.jamMaks).NaN? || 1 <= ParseNumber(f.jamMaks).value <= 40)
  {
    NoErrorsIff(Validate(f), {NamaField, MapelIdField, JamMaksField});
  }

  /** What is saved has a non-blank trimmed name, an hour limit that is NaN
      or in 1..40, and no empty list of days. */
  lemma {:induction false} SavedPayloadOk(f: Form)
    ensures HandleSubmit(f).Some? ==>
              var p := HandleSubmit(f).value;
              && !Blank(p.nama) && Trim(p.nama) == p.nama
              && (p.jamMaks.NaN? || 1 <= p.jamMaks.value <= 40)
              && p.hariTidakBisa != Some([])
  {
    if HandleSubmit(f).Some? {
      SubmitIff(f);
      SavedName(f.nama);
    }
  }

  /** Reopening a stored teacher and saving it unchanged gives back the
      same row, for a teacher the form would accept (an empty list of days
      comes back undefined). */
  lemma {:induction false} EditRoundTrip(t: Teacher)
    requires !Blank(t.nama) && Trim(t.nama) == t.nama
    requires 1 <= t.jamMaks <= 40
    ensures HandleSubmit(FormFor(t)) ==
              Some(Payload(t.nama, Num(t.mapelId), Num(t.jamMaks),
                           if t.hariTidakBisa == Some([]) then None else t.hariTidakBisa))
  {
    SubmitIff(FormFor(t));
    OptionalTextRoundTrip(t.hariTidakBisa);
  }

  /** A form with a blank name and no subject or hour limit, such as the
      new-teacher form, is refused with the three required messages. */
  lemma {:induction false} BlankFormRefused(f: Form)
    requires Blank(f.nama) && f.mapelId == [] && f.jamMaks == []
    ensures Validate(f).Keys == {NamaField, MapelIdField, JamMaksField}
    ensures Validate(f)[JamMaksField] == JamMaksRequired
    ensures HandleSubmit(f).None?
  {
  }

  /** An hour limit that does not read as a number is accepted and saved as
      NaN. */
  lemma {:induction false} NonNumericHoursSaved(name: string, mapelId: string)
    requires !Blank(name) && mapelId != []
    ensures HandleSubmit(Form(name, mapelId, ".5", "")) ==
              Some(Payload(Trim(name), ParseNumber(mapelId), NaN, None))
  {
    NonNumericPasses(1, 40);
    SubmitIff(Form(name, mapelId, ".5", ""));
  }
}
