/**
 * The validation rules of the REST framework's CharField, IntegerField and
 * ListField(child=IntegerField()) as the serializers of the core configure
 * them, and Python's int()/str() on decimal numbers that they rely on.
 */
module DrfFields {
  import opened Wrappers
  import opened Text
  import opened JsonData

  /** The error codes a field can report. */
  datatype FieldError =
    | Required              // "This field is required."
    | Null                  // "This field may not be null."
    | Blank                 // "This field may not be blank."
    | Invalid               // "Not a valid string." / "A valid integer is required."
    | MaxLength(limit: nat) // "Ensure this field has no more than {limit} characters."
    | NullCharacters        // "Null characters are not allowed."
    | Validators(failed: seq<FieldError>) // what the failing validators report, all of them, in order
    | MaxStringLength       // "String value too large."
    | MinValue(low: int)    // "Ensure this value is greater than or equal to {low}."
    | MaxValue(high: int)   // "Ensure this value is less than or equal to {high}."
    | NotAList              // "Expected a list of items but got type …"
    | ChildErrors           // some list element failed

  // -----------------------------------------------------------------------
  // Decimal numerals

  predicate IsDigit(c: char) {
    '0' <= c <= '9'
  }

  function DigitChar(d: int): (c: char)
    requires 0 <= d < 10
    ensures IsDigit(c)
  {
    ('0' as int + d) as char
  }

  /** The decimal digits of n, without leading zeros. */
  function NatDigits(n: nat): (s: string)
    ensures s != [] && forall i :: 0 <= i < |s| ==> IsDigit(s[i])
    ensures |s| == 1 <==> n < 10
    ensures |s| > 1 ==> s[0] != '0'
  {
    if n < 10 then [DigitChar(n)] else NatDigits(n / 10) + [DigitChar(n % 10)]
  }

  /** Python's str(n) for an int. */
  function IntToString(n: int): string {
    if n < 0 then "-" + NatDigits(-n) else NatDigits(n)
  }

  /** The value of a string of decimal digits. */
  function DigitsValue(s: string): nat
    requires forall i :: 0 <= i < |s| ==> IsDigit(s[i])
  {
    if s == [] then 0 else 10 * DigitsValue(s[..|s| - 1]) + DigitValue(s[|s| - 1])
  }

  function DigitValue(c: char): (d: nat)
    requires IsDigit(c)
    ensures d < 10 && DigitChar(d) == c
  {
    c as int - '0' as int
  }

  predicate AllDigits(s: string) {
    s != [] && forall i :: 0 <= i < |s| ==> IsDigit(s[i])
  }

  /** What follows an optional sign. */
  function Unsigned(t: string): string {
    if t != [] && (t[0] == '-' || t[0] == '+') then t[1..] else t
  }

  /**
   * Python's int(s) on a string: surrounding whitespace is ignored, then an
   * optional sign and at least one ASCII digit.
   */
  function ParseInt(s: string): (r: Option<int>)
    ensures r.Some? <==> AllDigits(Unsigned(Strip(s)))
    ensures r.Some? && Strip(s)[0] == '-' ==> r.value == -(DigitsValue(Unsigned(Strip(s))) as int)
    ensures r.Some? && Strip(s)[0] != '-' ==> r.value == DigitsValue(Unsigned(Strip(s)))
  {
    ReadInt(Strip(s))
  }

  /** int() on text that has already been stripped: an optional sign, then digits. */
  function ReadInt(t: string): (r: Option<int>)
    ensures r.Some? <==> AllDigits(Unsigned(t))
    ensures r.Some? && t[0] == '-' ==> r.value == -(DigitsValue(Unsigned(t)) as int)
    ensures r.Some? && t[0] != '-' ==> r.value == DigitsValue(Unsigned(t))
  {
    if t == [] then None
    else if (t[0] == '-' || t[0] == '+') && AllDigits(t[1..]) then
      var n: int := DigitsValue(t[1..]);
      Some(if t[0] == '-' then -n else n)
    else if AllDigits(t) then Some(DigitsValue(t))
    else None
  }

  /** int() reads the stripped text: whitespace around the number never matters. */
  lemma ParseIntIgnoresSpace(s: string)
    ensures ParseInt(s) == ParseInt(Strip(s))
  {
    StripTwice(s);
  }

  /** Leading zeros do not change the value read: int("007") == 7. */
  lemma {:induction false} LeadingZeroIgnored(t: string)
    requires AllDigits(t)
    ensures AllDigits("0" + t) && DigitsValue("0" + t) == DigitsValue(t)
    decreases |t|
  {
    var z := "0" + t;
    if |t| == 1 {
      assert z[..|z| - 1] == "0";
      assert "0"[..0] == [];
    } else {
      var init := t[..|t| - 1];
      LeadingZeroIgnored(init);
      assert z[..|z| - 1] == "0" + init;
    }
  }

  /** Digits alone read as their value. */
  lemma ParseIntDigits(t: string)
    requires AllDigits(t)
    ensures ParseInt(t) == Some(DigitsValue(t))
  {
    assert !IsSpace(t[0]) && !IsSpace(t[|t| - 1]);
    assert Strip(t) == t;
  }

  /** A sign in front of the digits: '-' negates, '+' keeps the value. */
  lemma ParseIntSign(c: char, t: string)
    requires AllDigits(t) && (c == '-' || c == '+')
    ensures ParseInt([c] + t) == Some(if c == '-' then -(DigitsValue(t) as int) else DigitsValue(t))
  {
    var m := [c] + t;
    assert NoOuterSpace(m) by {
      assert m[|m| - 1] == t[|t| - 1];
    }
    ParseIntOfTrimmed(m);
    ReadIntSign(c, t);
  }

  /** Text without outer whitespace is read as it is. */
  lemma ParseIntOfTrimmed(u: string)
    requires NoOuterSpace(u)
    ensures ParseInt(u) == ReadInt(u)
  {
    assert Strip(u) == u;
  }

  lemma ReadIntSign(c: char, t: string)
    requires AllDigits(t) && (c == '-' || c == '+')
    ensures ReadInt([c] + t) == Some(if c == '-' then -(DigitsValue(t) as int) else DigitsValue(t))
  {
    var m := [c] + t;
    assert m[1..] == t;
  }

  lemma {:induction false} DigitsValueOfNat(n: nat)
    ensures DigitsValue(NatDigits(n)) == n
  {
    if n >= 10 {
      var s := NatDigits(n);
      assert s[..|s| - 1] == NatDigits(n / 10);
      DigitsValueOfNat(n / 10);
    }
  }

  /** str(n) is a sign, only for a negative n, then digits: no whitespace, no '.', no null character. */
  lemma IntToStringShape(n: int)
    ensures var s := IntToString(n);
      && s != [] && NoOuterSpace(s)
      && (forall i :: 0 <= i < |s| ==> IsDigit(s[i]) || (i == 0 && s[i] == '-'))
      && '.' !in s && '\0' !in s
  {
    var s := IntToString(n);
    assert !IsSpace(s[0]) && !IsSpace(s[|s| - 1]);
  }

  /** int(str(n)) == n. */
  lemma ParseIntToString(n: int)
    ensures ParseInt(IntToString(n)) == Some(n)
  {
    var s := IntToString(n);
    DigitsValueOfNat(if n < 0 then -n else n);
    IntToStringShape(n);
    if n < 0 {
      assert s[1..] == NatDigits(-n);
    }
  }

  /** Number of '0' characters ending s. */
  function TrailingZeros(s: string): (n: nat)
    ensures n <= |s|
    ensures forall i :: |s| - n <= i < |s| ==> s[i] == '0'
    ensures n < |s| ==> s[|s| - n - 1] != '0'
  {
    if s == [] || s[|s| - 1] != '0' then 0 else 1 + TrailingZeros(s[..|s| - 1])
  }

  /**
   * re.sub(r'\.0*\s*$', '', s): a '.' followed only by zeros and then
   * whitespace up to the end is cut off together with them.
   */
  function DropDecimalZeros(s: string): (r: string)
    ensures r == s || (|r| < |s| && s[|r|] == '.' && r == s[..|r|])
  {
    var t := s[..|s| - TrailLen(s)];
    var z := TrailingZeros(t);
    if z < |t| && t[|t| - z - 1] == '.' then t[..|t| - z - 1] else s
  }

  // -----------------------------------------------------------------------
  // Fields

  /**
   * The errors of CharField's validators on the trimmed value, in the order
   * they run: MaxLengthValidator (when there is a limit), then
   * ProhibitNullCharactersValidator. ProhibitSurrogateCharactersValidator
   * never fails here: a Dafny char is never a surrogate code point.
   */
  function ValidatorErrors(s: string, limit: Option<nat>): seq<FieldError> {
    (if limit.Some? && |s| > limit.value then [MaxLength(limit.value)] else [])
    + (if '\0' in s then [NullCharacters] else [])
  }

  /** The text a CharField(max_length=limit) accepts, before trimming. */
  predicate AcceptableText(s: string, limit: Option<nat>) {
    && !AllSpace(s)
    && '\0' !in Strip(s)
    && (limit.Some? ==> |Strip(s)| <= limit.value)
  }

  /**
   * CharField(max_length=limit) with the defaults required=True,
   * allow_null=False, allow_blank=False, trim_whitespace=True, applied to the
   * value of a request field (None: the field is absent). Numbers are
   * accepted and rendered with str(); the blank test runs before the null
   * test, the validators run on the trimmed value and all their errors are
   * reported together.
   */
  function CharField(v: Option<Json>, limit: Option<nat>): (r: Result<string, FieldError>)
    ensures v.None? ==> r == Failure(Required)
    ensures v == Some(JNull) ==> r == Failure(Null)
    ensures v.Some? && (v.value.JBool? || v.value.JArr? || v.value.JObj?) ==> r == Failure(Invalid)
    ensures v.Some? && v.value.JStr? ==> (r.Success? <==> AcceptableText(v.value.s, limit))
    ensures v.Some? && v.value.JStr? && r.Success? ==> r.value == Strip(v.value.s)
    ensures v.Some? && v.value.JStr? && AllSpace(v.value.s) ==> r == Failure(Blank)
    ensures v.Some? && v.value.JInt? && (limit.None? || |IntToString(v.value.i)| <= limit.value) ==>
      r == Success(IntToString(v.value.i))
    ensures r.Success? ==> r.value != [] && NoOuterSpace(r.value) && '\0' !in r.value
    ensures r.Success? && limit.Some? ==> |r.value| <= limit.value
    ensures v.Some? && v.value.JStr? && !AllSpace(v.value.s) && r.Failure? ==>
      r.error == Validators(ValidatorErrors(Strip(v.value.s), limit))
  {
    match v
    case None => Failure(Required)
    case Some(JNull) => Failure(Null)
    case Some(JStr(s)) => if AllSpace(s) then Failure(Blank) else Validated(Strip(s), limit)
    case Some(JInt(n)) => IntToStringShape(n); Validated(Strip(IntToString(n)), limit)
    case Some(_) => Failure(Invalid)
  }

  /** run_validators: the value if no validator fails, else every failure. */
  function Validated(s: string, limit: Option<nat>): (r: Result<string, FieldError>)
    ensures r.Success? <==> ValidatorErrors(s, limit) == []
    ensures r.Success? ==> r.value == s
    ensures r.Failure? ==> r.error == Validators(ValidatorErrors(s, limit))
  {
    var errors := ValidatorErrors(s, limit);
    if errors == [] then Success(s) else Failure(Validators(errors))
  }

  /** No validator stops the others: a value too long and holding a null character gets both errors. */
  lemma CharFieldReportsAll(s: string, limit: nat)
    requires !AllSpace(s) && |Strip(s)| > limit && '\0' in Strip(s)
    ensures CharField(Some(JStr(s)), Some(limit)) == Failure(Validators([MaxLength(limit), NullCharacters]))
  {
    assert ValidatorErrors(Strip(s), Some(limit)) == [MaxLength(limit)] + [NullCharacters] == [MaxLength(limit), NullCharacters];
  }

  /** IntegerField.to_internal_value: JSON integers, and strings that int() reads once a ".0" tail is cut. */
  function ToInteger(v: Json): (r: Result<int, FieldError>)
    ensures v.JInt? ==> r == Success(v.i)
    ensures v.JBool? || v.JArr? || v.JObj? ==> r == Failure(Invalid)
  {
    match v
    case JInt(n) => Success(n)
    case JStr(s) =>
      if |s| > 1000 then Failure(MaxStringLength)
      else
        var p := ParseInt(DropDecimalZeros(s));
        if p.Some? then Success(p.value) else Failure(Invalid)
    case _ => Failure(Invalid)
  }

  /** IntegerField(min_value=low, max_value=high) on a present value; null is refused. */
  function IntegerField(v: Json, low: Option<int>, high: Option<int>): (r: Result<int, FieldError>)
    ensures r.Success? ==> ToInteger(v) == Success(r.value)
    ensures r.Success? ==> (low.Some? ==> low.value <= r.value) && (high.Some? ==> r.value <= high.value)
    ensures ToInteger(v).Success? && (low.Some? ==> low.value <= ToInteger(v).value) && (high.Some? ==> ToInteger(v).value <= high.value)
      ==> r.Success?
    ensures v == JNull ==> r == Failure(Null)
  {
    if v == JNull then Failure(Null)
    else
      match ToInteger(v)
      case Failure(e) => Failure(e)
      case Success(n) =>
        if low.Some? && n < low.value then Failure(MinValue(low.value))
        else if high.Some? && n > high.value then Failure(MaxValue(high.value))
        else Success(n)
  }

  /** The children of ListField(child=IntegerField()). */
  function IntegerItems(xs: seq<Json>): (r: Result<seq<int>, FieldError>)
    ensures r.Success? <==> forall k :: 0 <= k < |xs| ==> IntegerField(xs[k], None, None).Success?
    ensures r.Success? ==> |r.value| == |xs| && forall k :: 0 <= k < |xs| ==> IntegerField(xs[k], None, None) == Success(r.value[k])
  {
    if xs == [] then Success([])
    else
      var init := IntegerItems(xs[..|xs| - 1]);
      var last := IntegerField(xs[|xs| - 1], None, None);
      assert forall k :: 0 <= k < |xs| - 1 ==> xs[..|xs| - 1][k] == xs[k];
      if init.Success? && last.Success? then
        var r := init.value + [last.value];
        assert forall k :: 0 <= k < |xs| - 1 ==> r[k] == init.value[k];
        assert r[|xs| - 1] == last.value;
        Success(r)
      else Failure(ChildErrors)
  }

  /** ListField(child=IntegerField()) on a present value: a JSON array whose every element is an integer. */
  function IntegerListField(v: Json): (r: Result<seq<int>, FieldError>)
    ensures v == JNull ==> r == Failure(Null)
    ensures !v.JArr? && v != JNull ==> r == Failure(NotAList)
    ensures r.Success? <==> v.JArr? && forall k :: 0 <= k < |v.items| ==> IntegerField(v.items[k], None, None).Success?
    ensures r.Success? ==> |r.value| == |v.items|
    ensures r.Success? ==> forall k :: 0 <= k < |v.items| ==> IntegerField(v.items[k], None, None) == Success(r.value[k])
    ensures v.JArr? && !r.Success? ==> r == Failure(ChildErrors)
  {
    match v
    case JNull => Failure(Null)
    case JArr(xs) => IntegerItems(xs)
    case _ => Failure(NotAList)
  }

  /** A number sent as its decimal string is read as that number. */
  lemma NumeralReadsAsInt(n: int)
    requires |IntToString(n)| <= 1000
    ensures ToInteger(JStr(IntToString(n))) == Success(n)
  {
    NumeralHasNoDecimalTail(n);
    ParseIntToString(n);
    ReadsAs(IntToString(n), n);
  }

  lemma ReadsAs(s: string, n: int)
    requires |s| <= 1000 && ParseInt(DropDecimalZeros(s)) == Some(n)
    ensures ToInteger(JStr(s)) == Success(n)
  {
  }

  lemma NumeralHasNoDecimalTail(n: int)
    ensures DropDecimalZeros(IntToString(n)) == IntToString(n)
  {
    IntToStringShape(n);
    NoDecimalTail(IntToString(n));
  }

  /** A ".0" tail is cut before int() reads a numeral: "12.0" reads as 12. */
  lemma DecimalTailIgnored(n: int)
    requires |IntToString(n)| + 2 <= 1000
    ensures ToInteger(JStr(IntToString(n) + ".0")) == Success(n)
  {
    CutDecimalTail(IntToString(n));
    ParseIntToString(n);
    ReadsAs(IntToString(n) + ".0", n);
  }

  /** re.sub(r'\.0*\s*$', '', s + ".0") gives s back. */
  lemma CutDecimalTail(s: string)
    ensures DropDecimalZeros(s + ".0") == s
  {
    var t := s + ".0";
    assert TrailLen(t) == 0;
    assert t[..|t|] == t;
    assert t[..|t| - 1] == s + ".";
    assert TrailingZeros(t[..|t| - 1]) == 0;
    assert TrailingZeros(t) == 1;
    assert t[..|t| - 2] == s;
  }

  /** A string without '.' has no decimal tail to cut. */
  lemma NoDecimalTail(s: string)
    requires '.' !in s && s != [] && !IsSpace(s[|s| - 1])
    ensures DropDecimalZeros(s) == s
  {
    assert TrailLen(s) == 0;
    assert s[..|s|] == s;
  }
}
