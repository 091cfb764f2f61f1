/** The room form (`RoomModal`): a required name, a required capacity in
    1..200 when it is a number, and a required room type. */
module RoomModal {
  import opened Common
  import opened JsString
  import opened Entities
  import opened Forms

  /** The form's text fields; the type is the selected option's value. */
  datatype Form = Form(namaRuang: string, kapasitas: string, tipeRuang: string)

  /** What the form hands to `onSave`. */
  datatype Payload = Payload(namaRuang: string, kapasitas: JsNumber, tipeRuang: string)

  const NamaRuangField := "nama_ruang"
  const KapasitasField := "kapasitas"
  const TipeRuangField := "tipe_ruang"
  const NamaRuangRequired := "Nama ruangan wajib diisi"
  const KapasitasRequired := "Kapasitas wajib diisi"
  const KapasitasRange := "Kapasitas harus antara 1-200"
  const TipeRuangRequired := "Tipe ruangan wajib dipilih"

  /** The form prefilled from a stored room. */
  function FormFor(r: Room): (f: Form)
    ensures f.namaRuang == r.namaRuang && f.tipeRuang == r.tipeRuang
    ensures f.kapasitas != [] && ParseNumber(f.kapasitas) == Num(r.kapasitas)
  {
    RenderedRange(r.kapasitas, 1, 200);
    EmptyField();
    Form(r.namaRuang, IntToString(r.kapasitas), r.tipeRuang)
  }

  /** The error messages by field; the form is accepted when there are none.
      An empty capacity gets the required message, a number outside 1..200
      the range message. */
  function Validate(f: Form): (errors: map<string, string>)
    ensures errors.Keys <= {NamaRuangField, KapasitasField, TipeRuangField}
    ensures NamaRuangField in errors <==> Blank(f.namaRuang)
    ensures KapasitasField in errors <==> f.kapasitas == [] || OutOfRange(f.kapasitas, 1, 200)
    ensures TipeRuangField in errors <==> f.tipeRuang == []
    ensures NamaRuangField in errors ==> errors[NamaRuangField] == NamaRuangRequired
    ensures KapasitasField in errors ==>
              errors[KapasitasField] == if f.kapasitas == [] then KapasitasRequired else KapasitasRange
    ensures TipeRuangField in errors ==> errors[TipeRuangField] == TipeRuangRequired
  {
    var named: map<string, string> := if Blank(f.namaRuang) then map[NamaRuangField := NamaRuangRequired] else map[];
    var sized :=
      if f.kapasitas == [] then named[KapasitasField := KapasitasRequired]
      else if OutOfRange(f.kapasitas, 1, 200) then named[KapasitasField := KapasitasRange]
      else named;
    if f.tipeRuang == [] then sized[TipeRuangField := TipeRuangRequired] else sized
  }

  /** The payload built from an accepted form. The saved name is already
      trimmed, and empty only when the typed name is blank. */
  function PayloadOf(f: Form): (p: Payload)
    ensures p.namaRuang == Trim(f.namaRuang)
    ensures p.kapasitas == ParseNumber(f.kapasitas) && p.tipeRuang == f.tipeRuang
    ensures Trim(p.namaRuang) == p.namaRuang && (p.namaRuang == [] <==> Blank(f.namaRuang))
  {
    TrimIdempotent(f.namaRuang);
    Payload(Trim(f.namaRuang), ParseNumber(f.kapasitas), f.tipeRuang)
  }

  /** Submitting: nothing is saved unless validation leaves no error. */
  function HandleSubmit(f: Form): (r: Option<Payload>)
    ensures r.None? <==> |Validate(f)| != 0
    ensures r.Some? ==> r.value == PayloadOf(f)
  {
    if |Validate(f)| != 0 then None else Some(PayloadOf(f))
  }

  /** A form is saved exactly when its name is not blank, its capacity is
      filled in and is either not a number or a number in 1..200, and a
      type is chosen. */
  lemma {:induction false} SubmitIff(f: Form)
    ensures HandleSubmit(f).Some? <==>
              && !Blank(f.namaRuang) && f.kapasitas != [] && f.tipeRuang != []
              && (ParseNumber(f.kapasitas).NaN? || 1 <= ParseNumber(f.kapasitas).value <= 200)
  {
    NoErrorsIff(Validate(f), {NamaRuangField, KapasitasField, TipeRuangField});
  }

  /** What is saved has a non-blank trimmed name, a capacity that is NaN or
      in 1..200, and a type. */
  lemma {:induction false} SavedPayloadOk(f: Form)
    ensures HandleSubmit(f).Some? ==>
              var p := HandleSubmit(f).value;
              && !Blank(p.namaRuang) && Trim(p.namaRuang) == p.namaRuang
              && (p.kapasitas.NaN? || 1 <= p.kapasitas.value <= 200)
              && p.tipeRuang != []
  {
    if HandleSubmit(f).Some? {
      SubmitIff(f);
      SavedName(f.namaRuang);
    }
  }

  /** Reopening a stored room and saving it unchanged gives back the same
      row, for a room the form would accept. */
  lemma {:induction false} EditRoundTrip(r: Room)
    requires !Blank(r.namaRuang) && Trim(r.namaRuang) == r.namaRuang
    requires 1 <= r.kapasitas <= 200 && r.tipeRuang != []
    ensures HandleSubmit(FormFor(r)) == Some(Payload(r.namaRuang, Num(r.kapasitas), r.tipeRuang))
  {
    SubmitIff(FormFor(r));
  }

  /** A form with a blank name and no capacity or type, such as the new-room
      form, is refused with the three required messages. */
  lemma {:induction false} BlankFormRefused(f: Form)
    requires Blank(f.namaRuang) && f.kapasitas == [] && f.tipeRuang == []
    ensures Validate(f).Keys == {NamaRuangField, KapasitasField, TipeRuangField}
    ensures Validate(f)[KapasitasField] == KapasitasRequired
    ensures HandleSubmit(f).None?
  {
  }

  /** A capacity that does not read as a number is accepted and saved as
      NaN. */
  lemma {:induction false} NonNumericCapacitySaved(name: string, tipe: string)
    requires !Blank(name) && tipe != []
    ensures HandleSubmit(Form(name, ".5", tipe)) == Some(Payload(Trim(name), NaN, tipe))
  {
    NonNumericPasses(1, 200);
    SubmitIff(Form(name, ".5", tipe));
  }
}
