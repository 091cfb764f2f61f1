/** The class form (`ClassModal`): a required name, an optional grade that
    must lie in 1..12 when it is a number, and an optional major. */
module ClassModal {
  import opened Common
  import opened JsString
  import opened Entities
  import opened Forms

  /** The form's text fields. */
  datatype Form = Form(namaKelas: string, tingkat: string, jurusan: string)

  /** What the form hands to `onSave`; `None` stands for undefined. */
  datatype Payload = Payload(namaKelas: string, tingkat: Option<JsNumber>, jurusan: Option<string>)

  const NamaKelasField := "nama_kelas"
  const TingkatField := "tingkat"
  const NamaKelasRequired := "Nama kelas wajib diisi"
  const TingkatRange := "Tingkat harus antara 1-12"

  /** The form prefilled from a stored class. */
  function FormFor(c: ClassGroup): (f: Form)
    ensures f.namaKelas == c.namaKelas
    ensures c.tingkat.None? <==> f.tingkat == []
    ensures c.tingkat.Some? ==> ParseNumber(f.tingkat) == Num(c.tingkat.value)
    ensures f.jurusan == OrEmpty(c.jurusan)
  {
    Form(c.namaKelas, GradeText(c.tingkat), OrEmpty(c.jurusan))
  }

  /** `tingkat?.toString() || ''`. */
  function GradeText(tingkat: Option<int>): (s: string)
    ensures tingkat.None? <==> s == []
    ensures tingkat.Some? ==> ParseNumber(s) == Num(tingkat.value)
  {
    match tingkat
    case None => []
    case Some(t) =>
      RenderedRange(t, 1, 12);
      EmptyField();
      IntToString(t)
  }

  /** The error messages by field; the form is accepted when there are none. */
  function Validate(f: Form): (errors: map<string, string>)
    ensures errors.Keys <= {NamaKelasField, TingkatField}
    ensures NamaKelasField in errors <==> Blank(f.namaKelas)
    ensures TingkatField in errors <==> f.tingkat != [] && OutOfRange(f.tingkat, 1, 12)
    ensures NamaKelasField in errors ==> errors[NamaKelasField] == NamaKelasRequired
    ensures TingkatField in errors ==> errors[TingkatField] == TingkatRange
  {
    var named: map<string, string> := if Blank(f.namaKelas) then map[NamaKelasField := NamaKelasRequired] else map[];
    if f.tingkat != [] && OutOfRange(f.tingkat, 1, 12) then named[TingkatField := TingkatRange] else named
  }

  /** The payload built from an accepted form. The saved name is already
      trimmed, and empty only when the typed name is blank; the optional
      text is never saved as "" and prefills back as it was typed. */
  function PayloadOf(f: Form): (p: Payload)
    ensures p.namaKelas == Trim(f.namaKelas)
    ensures f.tingkat == [] ==> p.tingkat.None?
    ensures f.tingkat != [] ==> p.tingkat == Some(ParseNumber(f.tingkat))
    ensures p.jurusan == OrUndefined(f.jurusan)
    ensures Trim(p.namaKelas) == p.namaKelas && (p.namaKelas == [] <==> Blank(f.namaKelas))
    ensures OrEmpty(p.jurusan) == f.jurusan && p.jurusan != Some([])
  {
    TrimIdempotent(f.namaKelas);
    Payload(Trim(f.namaKelas), if f.tingkat != [] then Some(ParseNumber(f.tingkat)) else None, OrUndefined(f.jurusan))
  }

  /** Submitting: nothing is saved unless validation leaves no error. */
  function HandleSubmit(f: Form): (r: Option<Payload>)
    ensures r.None? <==> |Validate(f)| != 0
    ensures r.Some? ==> r.value == PayloadOf(f)
  {
    if |Validate(f)| != 0 then None else Some(PayloadOf(f))
  }

  /** A form is saved exactly when its name is not blank and its grade is
      empty, not a number, or a number in 1..12. */
  lemma {:induction false} SubmitIff(f: Form)
    ensures HandleSubmit(f).Some? <==>
              !Blank(f.namaKelas) && (ParseNumber(f.tingkat).NaN? || 1 <= ParseNumber(f.tingkat).value <= 12)
  {
    var errors := Validate(f);
    NoErrorsIff(errors, {NamaKelasField, TingkatField});
    if !Blank(f.namaKelas) && (ParseNumber(f.tingkat).NaN? || 1 <= ParseNumber(f.tingkat).value <= 12) {
    } else if Blank(f.namaKelas) {
    } else {
      assert ParseInt(f.tingkat).Some?;
      EmptyField();
    }
  }

  /** What is saved has a non-blank trimmed name, a grade that is undefined,
      NaN or in 1..12, and no empty major. */
  lemma {:induction false} SavedPayloadOk(f: Form)
    ensures HandleSubmit(f).Some? ==>
              var p := HandleSubmit(f).value;
              && !Blank(p.namaKelas) && Trim(p.namaKelas) == p.namaKelas
              && (p.tingkat.None? || p.tingkat.value.NaN? || 1 <= p.tingkat.value.value <= 12)
              && p.jurusan != Some([])
  {
    if HandleSubmit(f).Some? {
      SubmitIff(f);
      SavedName(f.namaKelas);
    }
  }

  /** Reopening a stored class and saving it unchanged gives back its name,
      grade and major, for a class the form would accept (an empty major
      comes back undefined). */
  lemma {:induction false} EditRoundTrip(c: ClassGroup)
    requires !Blank(c.namaKelas) && Trim(c.namaKelas) == c.namaKelas
    requires c.tingkat.None? || 1 <= c.tingkat.value <= 12
    ensures HandleSubmit(FormFor(c)) ==
              Some(Payload(c.namaKelas,
                           match c.tingkat case None => None case Some(t) => Some(Num(t)),
                           if c.jurusan == Some([]) then None else c.jurusan))
  {
    var f := FormFor(c);
    SubmitIff(f);
    OptionalTextRoundTrip(c.jurusan);
  }

  /** A form with a blank name and no grade, such as the new-class form, is
      refused with the name message alone. */
  lemma {:induction false} BlankFormRefused(f: Form)
    requires Blank(f.namaKelas) && f.tingkat == []
    ensures Validate(f).Keys == {NamaKelasField}
    ensures Validate(f)[NamaKelasField] == NamaKelasRequired
    ensures HandleSubmit(f).None?
  {
    EmptyField();
  }

  /** A grade that does not read as a number is accepted and saved as NaN. */
  lemma {:induction false} NonNumericGradeSaved(name: string)
    requires !Blank(name)
    ensures HandleSubmit(Form(name, ".5", "")) == Some(Payload(Trim(name), Some(NaN), None))
  {
    NonNumericPasses(1, 12);
  }
}
