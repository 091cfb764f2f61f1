/** The subject form (`SubjectModal`): a required name, a required weekly
    hour count in 1..10 when it is a number, and an optional special-room
    label that is never checked. */
module SubjectModal {
  import opened Common
  import opened JsString
  import opened Entities
  import opened Forms

  /** The form's text fields. */
  datatype Form = Form(namaMapel: string, jumlahJamPerMinggu: string, ruangKhusus: string)

  /** What the form hands to `onSave`; `None` stands for undefined. */
  datatype Payload = Payload(namaMapel: string, jumlahJamPerMinggu: JsNumber, ruangKhusus: Option<string>)

  const NamaMapelField := "nama_mapel"
  const JumlahJamField := "jumlah_jam_per_minggu"
  const NamaMapelRequired := "Nama mata pelajaran wajib diisi"
  const JumlahJamRequired := "Jumlah jam wajib diisi"
  const JumlahJamRange := "Jumlah jam harus antara 1-10"

  /** The form prefilled from a stored subject. */
  function FormFor(s: Subject): (f: Form)
    ensures f.namaMapel == s.namaMapel
    ensures f.jumlahJamPerMinggu != [] && ParseNumber(f.jumlahJamPerMinggu) == Num(s.jumlahJamPerMinggu)
    ensures f.ruangKhusus == OrEmpty(s.ruangKhusus)
  {
    RenderedRange(s.jumlahJamPerMinggu, 1, 10);
    EmptyField();
    Form(s.namaMapel, IntToString(s.jumlahJamPerMinggu), OrEmpty(s.ruangKhusus))
  }

  /** The error messages by field; the form is accepted when there are none.
      An empty hour count gets the required message, a number outside 1..10
      the range message. */
  function Validate(f: Form): (errors: map<string, string>)
    ensures errors.Keys <= {NamaMapelField, JumlahJamField}
    ensures NamaMapelField in errors <==> Blank(f.namaMapel)
    ensures JumlahJamField in errors <==> f.jumlahJamPerMinggu == [] || OutOfRange(f.jumlahJamPerMinggu, 1, 10)
    ensures NamaMapelField in errors ==> errors[NamaMapelField] == NamaMapelRequired
    ensures JumlahJamField in errors ==>
              errors[JumlahJamField] == if f.jumlahJamPerMinggu == [] then JumlahJamRequired else JumlahJamRange
  {
    var named: map<string, string> := if Blank(f.namaMapel) then map[NamaMapelField := NamaMapelRequired] else map[];
    if f.jumlahJamPerMinggu == [] then named[JumlahJamField := JumlahJamRequired]
    else if OutOfRange(f.jumlahJamPerMinggu, 1, 10) then named[JumlahJamField := JumlahJamRange]
    else named
  }

  /** The payload built from an accepted form. The saved name is already
      trimmed, and empty only when the typed name is blank; the optional
      text is never saved as "" and prefills back as it was typed. */
  function PayloadOf(f: Form): (p: Payload)
    ensures p.namaMapel == Trim(f.namaMapel)
    ensures p.jumlahJamPerMinggu == ParseNumber(f.jumlahJamPerMinggu)
    ensures p.ruangKhusus == OrUndefined(f.ruangKhusus)
    ensures Trim(p.namaMapel) == p.namaMapel && (p.namaMapel == [] <==> Blank(f.namaMapel))
    ensures OrEmpty(p.ruangKhusus) == f.ruangKhusus && p.ruangKhusus != Some([])
  {
    TrimIdempotent(f.namaMapel);
    Payload(Trim(f.namaMapel), ParseNumber(f.jumlahJamPerMinggu), OrUndefined(f.ruangKhusus))
  }

  /** Submitting: nothing is saved unless validation leaves no error. */
  function HandleSubmit(f: Form): (r: Option<Payload>)
    ensures r.None? <==> |Validate(f)| != 0
    ensures r.Some? ==> r.value == PayloadOf(f)
  {
    if |Validate(f)| != 0 then None else Some(PayloadOf(f))
  }

  /** A form is saved exactly when its name is not blank and its hour count
      is filled in and is either not a number or a number in 1..10; the
      special-room label plays no part. */
  lemma {:induction false} SubmitIff(f: Form)
    ensures HandleSubmit(f).Some? <==>
              && !Blank(f.namaMapel) && f.jumlahJamPerMinggu != []
              && (ParseNumber(f.jumlahJamPerMinggu).NaN? || 1 <= ParseNumber(f.jumlahJamPerMinggu).value <= 10)
  {
    NoErrorsIff(Validate(f), {NamaMapelField, JumlahJamField});
  }

  /** What is saved has a non-blank trimmed name, an hour count that is NaN
      or in 1..10, and no empty special-room label. */
  lemma {:induction false} SavedPayloadOk(f: Form)
    ensures HandleSubmit(f).Some? ==>
              var p := HandleSubmit(f).value;
              && !Blank(p.namaMapel) && Trim(p.namaMapel) == p.namaMapel
              && (p.jumlahJamPerMinggu.NaN? || 1 <= p.jumlahJamPerMinggu.value <= 10)
              && p.ruangKhusus != Some([])
  {
    if HandleSubmit(f).Some? {
      SubmitIff(f);
      SavedName(f.namaMapel);
    }
  }

  /** Reopening a stored subject and saving it unchanged gives back the same
      row, for a subject the form would accept (an empty label comes back
      undefined). */
  lemma {:induction false} EditRoundTrip(s: Subject)
    requires !Blank(s.namaMapel) && Trim(s.namaMapel) == s.namaMapel
    requires 1 <= s.jumlahJamPerMinggu <= 10
    ensures HandleSubmit(FormFor(s)) ==
              Some(Payload(s.namaMapel, Num(s.jumlahJamPerMinggu),
                           if s.ruangKhusus == Some([]) then None else s.ruangKhusus))
  {
    SubmitIff(FormFor(s));
    OptionalTextRoundTrip(s.ruangKhusus);
  }

  /** A form with a blank name and no hour count, such as the new-subject
      form, is refused with both required messages. */
  lemma {:induction false} BlankFormRefused(f: Form)
    requires Blank(f.namaMapel) && f.jumlahJamPerMinggu == []
    ensures Validate(f).Keys == {NamaMapelField, JumlahJamField}
    ensures Validate(f)[JumlahJamField] == JumlahJamRequired
    ensures HandleSubmit(f).None?
  {
  }

  /** An hour count that does not read as a number is accepted and saved as
      NaN. */
  lemma {:induction false} NonNumericHoursSaved(name: string, room: string)
    requires !Blank(name)
    ensures HandleSubmit(Form(name, ".5", room)) == Some(Payload(Trim(name), NaN, OrUndefined(room)))
  {
    NonNumericPasses(1, 10);
    SubmitIff(Form(name, ".5", room));
  }
}
