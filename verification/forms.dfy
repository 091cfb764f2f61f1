/** What the four entity forms share: the truthiness of a text field, blank
    names (`!value.trim()`), `parseInt` as a number that may be NaN, and the
    range check `parseInt(v) < lo || parseInt(v) > hi`. */
module Forms {
  import opened Common
  import opened JsString

  /** A number as `parseInt` returns it. */
  datatype JsNumber = NaN | Num(value: int)

  /** `parseInt(s)` as a number that may be NaN. */
  function ParseNumber(s: string): (n: JsNumber)
    ensures n.NaN? <==> ParseInt(s).None?
    ensures n.Num? ==> ParseInt(s) == Some(n.value)
  {
    match ParseInt(s)
    case None => NaN
    case Some(v) => Num(v)
  }

  /** `!value.trim()`: nothing but whitespace. */
  predicate Blank(s: string) {
    Trim(s) == []
  }

  /** `parseInt(s) < lo || parseInt(s) > hi`. Both comparisons are false for
      NaN, so a field that does not parse is never out of range. */
  predicate OutOfRange(s: string, lo: int, hi: int) {
    match ParseNumber(s)
    case NaN => false
    case Num(v) => v < lo || v > hi
  }

  /** `value || undefined`: the empty string is falsy and becomes undefined.
      What is saved is never the empty string, and prefilling it again gives
      the typed text back. */
  function OrUndefined(s: string): (r: Option<string>)
    ensures r != Some([])
    ensures OrEmpty(r) == s
    ensures r.None? <==> s == []
  {
    if s == [] then None else Some(s)
  }

  /** `value || ''` for a nullable stored string, as the forms prefill it. */
  function OrEmpty(s: Option<string>): (r: string)
    ensures s.None? ==> r == []
    ensures s.Some? ==> r == s.value
  {
    match s
    case None => []
    case Some(v) => v
  }

  /** `Object.keys(errors).length === 0` for errors filed under known
      fields: no field has a message. */
  lemma NoErrorsIff(errors: map<string, string>, fields: set<string>)
    requires errors.Keys <= fields
    ensures |errors| == 0 <==> forall k :: k in fields ==> k !in errors
  {
    if forall k :: k in fields ==> k !in errors {
      assert errors.Keys == {};
    } else {
      var k :| k in fields && k in errors;
      assert k in errors.Keys;
    }
  }

  /** A stored nullable string survives prefill and save, except that an
      empty string comes back as undefined. */
  lemma OptionalTextRoundTrip(s: Option<string>)
    ensures OrUndefined(OrEmpty(s)) == (if s == Some([]) then None else s)
  {
  }

  /** Blank means whitespace only. */
  lemma {:induction false} BlankIff(s: string)
    ensures Blank(s) <==> AllWhitespace(s)
  {
    TrimProperties(s);
  }

  /** The name a form saves, `value.trim()` of a non-blank value, is
      non-blank and already trimmed. */
  lemma {:induction false} SavedName(s: string)
    requires !Blank(s)
    ensures Trim(s) != [] && Trim(Trim(s)) == Trim(s) && !Blank(Trim(s))
  {
    TrimIdempotent(s);
  }

  /** A number rendered by `toString()` and read back is out of range exactly
      when the number is. */
  lemma {:induction false} RenderedRange(n: int, lo: int, hi: int)
    ensures ParseNumber(IntToString(n)) == Num(n)
    ensures OutOfRange(IntToString(n), lo, hi) <==> n < lo || n > hi
  {
    ParseIntRoundTrip(n);
  }

  /** An empty field is blank and reads as NaN. */
  lemma EmptyField()
    ensures Blank([]) && ParseNumber([]) == NaN
  {
    BlankParsesToNaN([]);
  }

  /** ".5" is a valid number-input value, yet `parseInt` finds no leading
      digit in it: it reads as NaN and so passes every range check. */
  lemma {:induction false} NonNumericPasses(lo: int, hi: int)
    ensures ParseNumber(".5") == NaN
    ensures !OutOfRange(".5", lo, hi)
  {
    var s := ".5";
    assert !IsWhitespace(s[0]);
    assert TrimStart(s) == s;
    assert !HasHexPrefix(s);
    assert DigitPrefix(s, 10) == [];
  }
}
