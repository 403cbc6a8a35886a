/**
 * Record normalisation for the daily-operations logger: the extracted,
 * untyped record is completed (date from the "hoy"/"ayer" cues or today,
 * unit price from total and quantity), its currency and farm are forced,
 * and it is turned into a `Transaction` by lenient number coercion and
 * strict vocabulary mapping.
 */
module DailyOps {
  import opened Wrappers
  import opened Decimal
  import opened Calendar
  import opened Text
  import opened Models

  // ------------------------------------------------------------ raw values

  /**
   * A decoded JSON value. A float is held as the exact real it denotes; a
   * list or object only by its length, which is all the conversions look at.
   */
  datatype Json = Null | Bool(b: bool) | Int(i: int) | Float(f: real) | Str(s: string) | Compound(size: nat)

  /** The extracted record, keyed by field name. */
  type Record = map<string, Json>

  /** `result.get(key)`: a missing key reads as `None`. */
  function Get(m: Record, key: string): Json {
    if key in m then m[key] else Null
  }

  /** Python truthiness: `None`, `False`, zero, `""` and empty containers are falsy. */
  predicate Truthy(j: Json) {
    match j
    case Null => false
    case Bool(b) => b
    case Int(i) => i != 0
    case Float(f) => f != 0.0
    case Str(s) => s != ""
    case Compound(n) => n != 0
  }

  /** `x in (None, 0)`: in Python `False == 0` and `0.0 == 0` hold as well. */
  predicate IsNoneOrZero(j: Json) {
    j == Null || j == Bool(false) || j == Int(0) || j == Float(0.0)
  }

  /** The value Python arithmetic sees in a number; `None` for anything `/` refuses. */
  function NumberOf(j: Json): (r: Option<real>)
    ensures r == Some(0.0) <==> j == Bool(false) || j == Int(0) || j == Float(0.0)
    ensures r.Some? <==> j.Bool? || j.Int? || j.Float?
  {
    match j
    case Bool(b) => Some(if b then 1.0 else 0.0)
    case Int(i) => Some(i as real)
    case Float(f) => Some(f)
    case _ => None
  }

  /** `str(n)` for an int. */
  function IntText(n: int): (s: string)
    ensures |s| >= 1
  {
    (if n < 0 then "-" else "") + Digits(if n < 0 then -n else n)
  }

  // ---------------------------------------------------------------- numbers

  /** `round(x)` on a number: the nearest integer, ties to the even one. */
  function RoundHalfEven(x: real): (n: int)
    ensures -0.5 <= x - n as real <= 0.5
    ensures (x - n as real == 0.5 || n as real - x == 0.5) ==> n % 2 == 0
  {
    var f := x.Floor;
    var d := x - f as real;
    if d < 0.5 then f
    else if d > 0.5 then f + 1
    else if f % 2 == 0 then f
    else f + 1
  }

  /** Rounding to the nearest integer, ties to even, has exactly one answer. */
  lemma RoundHalfEvenUnique(x: real, m: int)
    requires -0.5 <= x - m as real <= 0.5
    requires (x - m as real == 0.5 || m as real - x == 0.5) ==> m % 2 == 0
    ensures m == RoundHalfEven(x)
  {
  }

  /** An integer rounds to itself. */
  lemma RoundWhole(k: int)
    ensures RoundHalfEven(k as real) == k
  {
    RoundHalfEvenUnique(k as real, k);
  }

  /** `round(x, 2)`: the nearest multiple of 1/100, ties to the even hundredth. */
  function Round2(x: real): (r: real)
    ensures -0.005 <= x - r <= 0.005
    ensures (r * 100.0).Floor as real == r * 100.0
  {
    RoundHalfEven(x * 100.0) as real / 100.0
  }

  /**
   * `float(s)` for the plain decimal forms: an optional sign, then digits
   * with at most one `.` and at least one digit.
   */
  function ParseDecimal(s: string): (r: Option<real>)
  {
    var negative := |s| > 0 && s[0] == '-';
    var body := if |s| > 0 && (s[0] == '-' || s[0] == '+') then s[1..] else s;
    var magnitude :=
      if '.' in body then
        var i := IndexOf(body, '.');
        var whole, frac := body[..i], body[i + 1..];
        if AllDigits(whole) && AllDigits(frac) && |whole| + |frac| >= 1
        then Some(ValueOf(whole) as real + ValueOf(frac) as real / Pow10(|frac|) as real)
        else None
      else if |body| >= 1 && AllDigits(body) then Some(ValueOf(body) as real)
      else None;
    match magnitude
    case None => None
    case Some(v) => Some(if negative then -v else v)
  }

  /** `float` reads a plain run of digits as the number it denotes. */
  lemma ParseDigits(d: string)
    requires |d| >= 1 && AllDigits(d)
    ensures ParseDecimal(d) == Some(ValueOf(d) as real)
  {
    assert IsDigit(d[0]);
    assert '.' !in d by {
      assert !IsDigit('.');
    }
  }

  /** ... and a minus sign before it negates it. */
  lemma ParseNegatedDigits(d: string)
    requires |d| >= 1 && AllDigits(d)
    ensures ParseDecimal("-" + d) == Some(-(ValueOf(d) as real))
  {
    var s := "-" + d;
    assert s[0] == '-' && s[1..] == d;
    assert '.' !in d by {
      assert !IsDigit('.');
    }
  }

  /** What `float(s)` makes of what `str(n)` wrote is `n` itself. */
  lemma ParseIntText(n: int)
    ensures ParseDecimal(IntText(n)) == Some(n as real)
  {
    var a := if n < 0 then -n else n;
    ValueOfDigits(a);
    if n < 0 {
      ParseNegatedDigits(Digits(a));
    } else {
      assert IntText(n) == Digits(a);
      ParseDigits(Digits(a));
    }
  }

  /** `float("2.5")` is 2.5. */
  lemma ParseTwoAndAHalf()
    ensures ParseDecimal("2.5") == Some(2.5)
  {
    var s := "2.5";
    assert s[0] == '2';
    assert '.' in s && IndexOf(s, '.') == 1;
    var whole, frac := s[..1], s[2..];
    assert whole == "2" && frac == "5";
    assert ValueOf(whole) == 2 by {
      assert whole[..0] == [];
    }
    assert ValueOf(frac) == 5 by {
      assert frac[..0] == [];
    }
    assert Pow10(1) == 10;
  }

  /** `float(x)`: numbers as they are, strings by their decimal reading, anything else refused. */
  function FloatOf(j: Json): Option<real> {
    match j
    case Str(s) => ParseDecimal(s)
    case Compound(_) => None
    case Null => None
    case _ => NumberOf(j)
  }

  /** `x in (None, "null", "")`. */
  predicate IsNullText(j: Json) {
    j == Null || j == Str("null") || j == Str("")
  }

  /**
   * `to_int_or_none`: `None`, "null" and "" give none, anything `float`
   * refuses gives none, and a number gives its nearest integer.
   */
  function ToIntOrNone(j: Json): (r: Option<int>)
    ensures r.Some? <==> !IsNullText(j) && FloatOf(j).Some?
    ensures r.Some? ==> -0.5 <= FloatOf(j).value - r.value as real <= 0.5
  {
    if IsNullText(j) then None
    else
      match FloatOf(j)
      case None => None
      case Some(x) => Some(RoundHalfEven(x))
  }

  /** Whole numbers pass through unchanged, whether stored as numbers or as their text. */
  lemma ToIntOrNoneWhole(n: int)
    ensures ToIntOrNone(Int(n)) == Some(n)
    ensures ToIntOrNone(Float(n as real)) == Some(n)
    ensures ToIntOrNone(Str(IntText(n))) == Some(n)
  {
    RoundWhole(n);
    IntTextToInt(n);
  }

  lemma IntTextToInt(n: int)
    ensures ToIntOrNone(Str(IntText(n))) == Some(n)
  {
    ParseIntText(n);
    IntTextIsNotNull(n);
    RoundWhole(n);
  }

  /** What `str` writes for an int is neither "null" nor empty. */
  lemma IntTextIsNotNull(n: int)
    ensures !IsNullText(Str(IntText(n)))
  {
    var s := IntText(n);
    var nul := "null";
    assert s[0] == '-' || IsDigit(s[0]);
    assert nul[0] == 'n';
    assert s != nul;
  }

  /** Halves go to the even neighbour, as `round` does, and `True` counts as 1. */
  lemma ToIntOrNoneRounds()
    ensures ToIntOrNone(Str("2.5")) == Some(2)
    ensures ToIntOrNone(Float(3.5)) == Some(4)
    ensures ToIntOrNone(Bool(true)) == Some(1)
  {
    ParseTwoAndAHalf();
    RoundHalfEvenUnique(2.5, 2);
    RoundHalfEvenUnique(3.5, 4);
    RoundWhole(1);
  }

  /** Text `float` refuses, the text "null" and containers give none. */
  lemma ToIntOrNoneRefuses()
    ensures ToIntOrNone(Str("abc")) == None
    ensures ToIntOrNone(Str("null")) == None
    ensures ToIntOrNone(Compound(2)) == None
  {
    var s := "abc";
    assert !IsDigit(s[0]) && '.' !in s;
  }

  // ------------------------------------------------------------------ uuids

  /** A UUID's 128 bits. */
  predicate IsUuidValue(u: Uuid) {
    u.bits < Pow16(32)
  }

  /** A string of hexadecimal digits only. */
  predicate AllHex(h: string) {
    forall i :: 0 <= i < |h| ==> IsHexDigit(h[i])
  }

  /** The 8-4-4-4-12 grouping of 32 hex digits by hyphens. */
  function Hyphenated(h: string): (s: string)
    requires |h| == 32
    ensures |s| == 36
  {
    h[..8] + "-" + (h[8..12] + "-" + (h[12..16] + "-" + (h[16..20] + "-" + h[20..])))
  }

  /** `str(uuid)`: its 32 lower-case hex digits, grouped 8-4-4-4-12. */
  function UuidText(u: Uuid): (s: string)
    requires IsUuidValue(u)
    ensures |s| == 36
  {
    Hyphenated(HexPadded(u.bits, 32))
  }

  /**
   * `uuid.UUID(s)`: "urn:" and "uuid:" removed, braces stripped from both
   * ends, hyphens removed; what remains must be exactly 32 hex digits.
   */
  function ParseUuid(s: string): (r: Option<Uuid>)
    ensures r.Some? ==> IsUuidValue(r.value)
  {
    var h := Without(Strip(RemoveAll(RemoveAll(s, "urn:"), "uuid:"), {'{', '}'}), '-');
    if |h| == 32 && AllHex(h) then Some(Uuid(HexValueOf(h))) else None
  }

  /** Hyphenated hex digits hold no colon and neither start nor end with a brace. */
  lemma HyphenatedEdges(h: string)
    requires |h| == 32 && AllHex(h)
    ensures var s := Hyphenated(h);
      ':' !in s && s[0] == h[0] && s[35] == h[31]
  {
    var s := Hyphenated(h);
    assert ':' !in h[..8] && ':' !in h[8..12] && ':' !in h[12..16] && ':' !in h[16..20] && ':' !in h[20..] by {
      assert !IsHexDigit(':');
    }
    assert s[35] == h[20..][11];
  }

  /** Removing the hyphens of the 8-4-4-4-12 grouping gives back the 32 digits. */
  lemma HyphensRemoved(h: string)
    requires |h| == 32 && '-' !in h
    ensures Without(Hyphenated(h), '-') == h
  {
    var a, b, c, d, e := h[..8], h[8..12], h[12..16], h[16..20], h[20..];
    WithoutFive(a, b, c, d, e);
    SliceJoin(h, 16, 20);
    SliceJoin(h, 12, 16);
    SliceJoin(h, 8, 12);
    SliceJoin(h, 0, 8);
    assert h[0..] == h;
  }

  /** Removing the four hyphens between five hyphen-free pieces concatenates the pieces. */
  lemma WithoutFive(a: string, b: string, c: string, d: string, e: string)
    requires '-' !in a && '-' !in b && '-' !in c && '-' !in d && '-' !in e
    ensures Without(a + "-" + (b + "-" + (c + "-" + (d + "-" + e))), '-') == a + (b + (c + (d + e)))
  {
    WithoutAbsent(e, '-');
    WithoutJoin(d, '-', e);
    WithoutJoin(c, '-', d + "-" + e);
    WithoutJoin(b, '-', c + "-" + (d + "-" + e));
    WithoutJoin(a, '-', b + "-" + (c + "-" + (d + "-" + e)));
  }

  lemma SliceJoin(h: string, i: nat, j: nat)
    requires i <= j <= |h|
    ensures h[i..j] + h[j..] == h[i..]
  {
  }

  /** The clean-up `uuid.UUID` does before reading the digits takes 8-4-4-4-12 text back to its digits. */
  lemma CleanedText(h: string)
    requires |h| == 32 && AllHex(h)
    ensures Without(Strip(RemoveAll(RemoveAll(Hyphenated(h), "urn:"), "uuid:"), {'{', '}'}), '-') == h
  {
    var s := Hyphenated(h);
    assert '-' !in h;
    HyphenatedEdges(h);
    RemoveAllAbsent(s, "urn:");
    RemoveAllAbsent(s, "uuid:");
    assert !IsHexDigit('{') && !IsHexDigit('}');
    StripUnchanged(s, {'{', '}'});
    HyphensRemoved(h);
  }

  /** Every UUID reads back from the text `str` gives it. */
  lemma ParseUuidText(u: Uuid)
    requires IsUuidValue(u)
    ensures ParseUuid(UuidText(u)) == Some(u)
  {
    var h := HexPadded(u.bits, 32);
    CleanedText(h);
    HexValueOfPadded(u.bits, 32);
  }

  /**
   * `to_uuid`: none for a falsy value, else `uuid.UUID(str(x))`, with none
   * where that fails. The `str` of a float, list or object never cleans to
   * 32 hex digits (a float's is too short, a list's keeps its brackets, an
   * object's its spaces), so those give none.
   */
  function ToUuid(j: Json): (r: Option<Uuid>)
    ensures !Truthy(j) ==> r.None?
    ensures r.Some? ==> IsUuidValue(r.value)
    ensures j.Str? && j.s != "" ==> r == ParseUuid(j.s)
    ensures j.Int? && j.i != 0 ==> r == ParseUuid(IntText(j.i))
    ensures j.Float? || j.Compound? ==> r.None?
  {
    if !Truthy(j) then None
    else
      match j
      case Str(s) => ParseUuid(s)
      case Int(i) => ParseUuid(IntText(i))
      case Bool(_) => ParseUuid("True")
      case _ => None
  }

  /** The farm every record is booked to. */
  const DefaultFarmId: Uuid := Uuid(1)

  /** Its text, as the script writes it into the record. */
  const DefaultFarmText: string := "00000000-0000-0000-0000-000000000001"

  /** `to_uuid` of the text `str` gives a UUID is that UUID. */
  lemma ToUuidOfText(u: Uuid)
    requires IsUuidValue(u)
    ensures ToUuid(Str(UuidText(u))) == Some(u)
  {
    ParseUuidText(u);
  }

  /** The default farm's text is what `str` writes for it, so it reads back as the default farm. */
  lemma DefaultFarmTextReadsBack()
    ensures IsUuidValue(DefaultFarmId) && UuidText(DefaultFarmId) == DefaultFarmText
    ensures ToUuid(Str(DefaultFarmText)) == Some(DefaultFarmId)
  {
    DefaultFarmIsText();
    ToUuidOfText(DefaultFarmId);
  }

  lemma DefaultFarmIsText()
    ensures IsUuidValue(DefaultFarmId) && UuidText(DefaultFarmId) == DefaultFarmText
  {
    Pow16AtLeastBase(32);
    HexPaddedOne(32);
    DefaultFarmGrouping();
  }

  function Zeros(n: nat): string {
    seq(n, _ => '0')
  }

  /** Thirty-one zeros and a one, grouped 8-4-4-4-12, are the default farm's text. */
  lemma DefaultFarmGrouping()
    ensures Hyphenated(Zeros(31) + ['1']) == DefaultFarmText
  {
    var h := Zeros(31) + ['1'];
    assert h[..8] == Zeros(8) == "00000000";
    assert h[8..12] == Zeros(4) == "0000";
    assert h[12..16] == Zeros(4);
    assert h[16..20] == Zeros(4);
    assert h[20..] == Zeros(11) + ['1'] == "000000000001";
    DefaultFarmPieces();
  }

  lemma DefaultFarmPieces()
    ensures "00000000" + "-" + ("0000" + "-" + ("0000" + "-" + ("0000" + "-" + "000000000001"))) == DefaultFarmText
  {
  }

  lemma {:induction false} Pow16AtLeastBase(k: nat)
    requires k >= 1
    ensures Pow16(k) >= 16
  {
    if k > 1 {
      Pow16AtLeastBase(k - 1);
    }
  }

  /** `1` in `width` hex digits: zeros, then a final `1`. */
  lemma {:induction false} HexPaddedOne(width: nat)
    requires width >= 1
    ensures HexPadded(1, width) == Zeros(width - 1) + ['1']
  {
    if width > 1 {
      HexPaddedZero(width - 1);
    }
  }

  lemma {:induction false} HexPaddedZero(width: nat)
    ensures HexPadded(0, width) == Zeros(width)
  {
    if width > 0 {
      HexPaddedZero(width - 1);
    }
  }

  // ----------------------------------------------------------- vocabularies

  datatype LogError =
    | DateOverflow                  // `today - timedelta(days=1)` before 0001-01-01
    | MissingField(key: string)     // `result[key]` on an absent key
    | InvalidDate(value: Json)      // `date.fromisoformat` refused the value
    | UnknownCategory(value: Json)  // `ActivityCategory(value)` refused it
    | UnknownType(value: Json)      // `TxnType(value)` refused it

  /** `map_activity`: exactly one of the seven stored strings, nothing else. */
  function MapActivity(j: Json): (r: Result<ActivityCategory, LogError>)
    ensures r.Ok? <==> exists c: ActivityCategory :: j == Str(c.Value())
    ensures r.Ok? ==> j == Str(r.value.Value())
    ensures r.Err? ==> r.error == UnknownCategory(j)
  {
    match j
    case Str(s) =>
      (match CategoryFromValue(s)
       case Some(c) => Ok(c)
       case None => Err(UnknownCategory(j)))
    case _ => Err(UnknownCategory(j))
  }

  /** `map_type`: exactly "ingreso" or "gasto". */
  function MapType(j: Json): (r: Result<TxnType, LogError>)
    ensures r.Ok? <==> j == Str("ingreso") || j == Str("gasto")
    ensures r.Ok? ==> j == Str(r.value.Value())
    ensures r.Err? ==> r.error == UnknownType(j)
  {
    match j
    case Str(s) =>
      (match TypeFromValue(s)
       case Some(t) => Ok(t)
       case None => Err(UnknownType(j)))
    case _ => Err(UnknownType(j))
  }

  // -------------------------------------------------------- normalisation

  /**
   * The date the message's cues point to, as `isoformat` text: "hoy"
   * (today) wins over "ayer" (yesterday); with neither there is none.
   */
  function InferDate(message: string, today: Date): (r: Result<Option<string>, LogError>)
    requires InRange(today)
    ensures Contains(Lower(message), "hoy") ==> r == Ok(Some(Iso(today)))
    ensures !Contains(Lower(message), "hoy") && !Contains(Lower(message), "ayer") ==> r == Ok(None)
    ensures r.Err? <==> !Contains(Lower(message), "hoy") && Contains(Lower(message), "ayer") && Ordinal(today) == 1
    ensures r.Err? ==> r.error == DateOverflow
    ensures !Contains(Lower(message), "hoy") && Contains(Lower(message), "ayer") && r.Ok? ==>
      r.value.Some? && ParseIsoDate(r.value.value).Some?
      && Ordinal(ParseIsoDate(r.value.value).value) == Ordinal(today) - 1
  {
    var lower := Lower(message);
    OrdinalInRange(today);
    if Contains(lower, "hoy") then Ok(Some(Iso(today)))
    else if Contains(lower, "ayer") then
      match Shift(today, -1)
      case Ok(yesterday) =>
        IsoRoundTrip(yesterday);
        Ok(Some(Iso(yesterday)))
      case Err(_) => Err(DateOverflow)
    else Ok(None)
  }

  /** `result.get("date") in (None, "", "null")`. */
  predicate IsBlankDate(j: Json) {
    j == Null || j == Str("") || j == Str("null")
  }

  /** A blank date is replaced by the inferred date, or by today when there is none; a present one stays. */
  function FillDate(m: Record, inferred: Option<string>, today: Date): (r: Record)
    requires InRange(today)
    ensures !IsBlankDate(Get(m, "date")) ==> r == m
    ensures IsBlankDate(Get(m, "date")) ==> r == m["date" := Str(inferred.GetOr(Iso(today)))]
  {
    if IsBlankDate(Get(m, "date")) then m["date" := Str(inferred.GetOr(Iso(today)))] else m
  }

  /** `result.get("unit_price") in (None, "null")`; an empty string is not missing. */
  predicate IsMissingPrice(j: Json) {
    j == Null || j == Str("null")
  }

  /**
   * `round(total / qty, 2)`, or `None` where `/` raises (a string, list or
   * object operand); `qty` is a nonzero number or not a number at all.
   */
  function Quotient(total: Json, qty: Json): (r: Json)
    requires !IsNoneOrZero(qty)
    ensures r.Float? <==> NumberOf(total).Some? && NumberOf(qty).Some?
    ensures r.Float? ==> -0.005 <= NumberOf(total).value / NumberOf(qty).value - r.f <= 0.005
    ensures !r.Float? ==> r == Null
  {
    match (NumberOf(total), NumberOf(qty))
    case (Some(t), Some(q)) => Float(Round2(t / q))
    case _ => Null
  }

  /** Derive the unit price from total and quantity when it is missing and both are present and nonzero. */
  predicate DerivesPrice(m: Record) {
    IsMissingPrice(Get(m, "unit_price")) && !IsNoneOrZero(Get(m, "quantity")) && !IsNoneOrZero(Get(m, "total_value"))
  }

  function DeriveUnitPrice(m: Record): (r: Record)
    ensures !DerivesPrice(m) ==> r == m
    ensures DerivesPrice(m) ==>
      (r.Keys == m.Keys + {"unit_price"} && forall k :: k in m && k != "unit_price" ==> r[k] == m[k])
  {
    if DerivesPrice(m) then m["unit_price" := Quotient(Get(m, "total_value"), Get(m, "quantity"))] else m
  }

  /** Currency and farm are overwritten whatever the extractor said. */
  function ForceDefaults(m: Record): (r: Record)
    ensures Get(r, "currency") == Str(DefaultCurrency) && Get(r, "farm_id") == Str(DefaultFarmText)
    ensures r.Keys == m.Keys + {"currency", "farm_id"}
    ensures forall k :: k in m && k != "currency" && k != "farm_id" ==> r[k] == m[k]
  {
    m["currency" := Str(DefaultCurrency)]["farm_id" := Str(DefaultFarmText)]
  }

  /** The completed record: date filled, unit price derived, currency and farm forced. */
  function Normalize(message: string, today: Date, extracted: Record): Result<Record, LogError>
    requires InRange(today)
  {
    match InferDate(message, today)
    case Err(e) => Err(e)
    case Ok(inferred) => Ok(ForceDefaults(DeriveUnitPrice(FillDate(extracted, inferred, today))))
  }

  // ---------------------------------------------------------- construction

  /** `result[key]`: an absent key is a KeyError. */
  function Lookup(m: Record, key: string): (r: Result<Json, LogError>)
    ensures r.Ok? <==> key in m
    ensures r.Ok? ==> r.value == m[key]
    ensures r.Err? ==> r.error == MissingField(key)
  {
    if key in m then Ok(m[key]) else Err(MissingField(key))
  }

  /** `date.fromisoformat(value)`: only a `YYYY-MM-DD` string naming a real day. */
  function ParseDateField(j: Json): (r: Result<Date, LogError>)
    ensures r.Ok? <==> j.Str? && ParseIsoDate(j.s).Some?
    ensures r.Ok? ==> InRange(r.value) && j == Str(Iso(r.value))
    ensures r.Err? ==> r.error == InvalidDate(j)
  {
    match j
    case Str(s) =>
      (match ParseIsoDate(s)
       case Some(d) =>
         IsoCanonical(s, d);
         Ok(d)
       case None => Err(InvalidDate(j)))
    case _ => Err(InvalidDate(j))
  }

  /** `result.get(key)` handed to a text column: a string, or nothing. */
  function TextOf(j: Json): Option<string> {
    match j
    case Str(s) => Some(s)
    case _ => None
  }

  /** `result.get(key) or None` for a text column: an empty string is nothing too. */
  function NonEmptyText(j: Json): Option<string> {
    match j
    case Str(s) => if s == "" then None else Some(s)
    case _ => None
  }

  /**
   * The `Transaction(...)` call: its arguments in order, so a missing farm
   * id comes first, then a bad date, then an unknown category, then an
   * unknown type.
   */
  function BuildTransaction(m: Record): (r: Result<Transaction, LogError>)
    ensures r.Ok? <==>
      ("farm_id" in m && "date" in m && "activitycategory" in m && "type" in m
       && ParseDateField(m["date"]).Ok? && MapActivity(m["activitycategory"]).Ok? && MapType(m["type"]).Ok?)
    ensures r.Ok? ==> InRange(r.value.date)
    ensures r.Ok? ==>
      (Str(Iso(r.value.date)) == m["date"]
       && Str(r.value.category.Value()) == m["activitycategory"]
       && Str(r.value.txnType.Value()) == m["type"])
  {
    var farm :- Lookup(m, "farm_id");
    var dateValue :- Lookup(m, "date");
    var date :- ParseDateField(dateValue);
    var categoryValue :- Lookup(m, "activitycategory");
    var category :- MapActivity(categoryValue);
    var typeValue :- Lookup(m, "type");
    var txnType :- MapType(typeValue);
    Ok(Transaction(
      farmId := ToUuid(farm).GetOr(DefaultFarmId),
      date := date,
      category := category,
      txnType := txnType,
      description := TextOf(Get(m, "description")),
      quantity := ToIntOrNone(Get(m, "quantity")),
      unit := NonEmptyText(Get(m, "unit")),
      unitPrice := ToIntOrNone(Get(m, "unit_price")),
      totalValue := ToIntOrNone(Get(m, "total_value")),
      currency := (match Get(m, "currency") case Str(s) => if s == "" then DefaultCurrency else s case _ => DefaultCurrency),
      sourceMessageId := ToUuid(Get(m, "source_message_id"))))
  }

  /** The whole pipeline: normalise the extracted record, then build the transaction. */
  function Ingest(message: string, today: Date, extracted: Record): Result<Transaction, LogError>
    requires InRange(today)
  {
    match Normalize(message, today, extracted)
    case Err(e) => Err(e)
    case Ok(m) => BuildTransaction(m)
  }

  /** The script's reading of the message: "hoy" first, then "ayer", which steps back one day. */
  method InferDateFromMessage(message: string, today: Date) returns (r: Result<Option<string>, LogError>)
    requires InRange(today)
    ensures r == InferDate(message, today)
  {
    var inferred: Option<string> := None;
    var lower := Lower(message);
    if Contains(lower, "hoy") {
      inferred := Some(Iso(today));
    } else if Contains(lower, "ayer") {
      var yesterday := Shift(today, -1);
      if yesterday.Err? {
        return Err(DateOverflow);
      }
      inferred := Some(Iso(yesterday.value));
    }
    r := Ok(inferred);
  }

  /** The script's updates of the extracted record, one key at a time. */
  method CompleteRecord(extracted: Record, inferred: Option<string>, today: Date) returns (result: Record)
    requires InRange(today)
    ensures result == ForceDefaults(DeriveUnitPrice(FillDate(extracted, inferred, today)))
  {
    result := extracted;
    if IsBlankDate(Get(result, "date")) {
      result := result["date" := Str(inferred.GetOr(Iso(today)))];
    }
    var qty := Get(result, "quantity");
    var total := Get(result, "total_value");
    if IsMissingPrice(Get(result, "unit_price")) && !IsNoneOrZero(qty) && !IsNoneOrZero(total) {
      result := result["unit_price" := Quotient(total, qty)];
    }
    result := result["currency" := Str(DefaultCurrency)];
    result := result["farm_id" := Str(DefaultFarmText)];
  }

  /**
   * The script run on one message: infer the date, complete the extracted
   * record in place, and build the transaction.
   */
  method LogDailyOps(message: string, today: Date, extracted: Record) returns (r: Result<Transaction, LogError>)
    requires InRange(today)
    ensures r == Ingest(message, today, extracted)
    ensures r.Ok? ==> r.value.currency == DefaultCurrency && r.value.farmId == DefaultFarmId
  {
    var inferred := InferDateFromMessage(message, today);
    if inferred.Err? {
      return Err(inferred.error);
    }
    var result := CompleteRecord(extracted, inferred.value, today);
    r := BuildTransaction(result);
    DefaultsSurvive(message, today, extracted);
  }

  // ------------------------------------------------------------ properties

  /** The fields normalisation writes. */
  predicate Written(k: string) {
    k == "date" || k == "unit_price" || k == "currency" || k == "farm_id"
  }

  /** Normalisation leaves every other field as the extractor gave it. */
  lemma NormalizeKeepsOthers(message: string, today: Date, extracted: Record, k: string)
    requires InRange(today) && Normalize(message, today, extracted).Ok? && !Written(k)
    ensures var m := Normalize(message, today, extracted).value;
      (k in m <==> k in extracted) && Get(m, k) == Get(extracted, k)
  {
    var filled := FillDate(extracted, InferDate(message, today).value, today);
    assert Normalize(message, today, extracted).value == ForceDefaults(DeriveUnitPrice(filled));
    assert (k in filled <==> k in extracted) && Get(filled, k) == Get(extracted, k);
  }

  /** Currency is "COP" and the farm is the default one, whatever the record held. */
  lemma DefaultsSurvive(message: string, today: Date, extracted: Record)
    requires InRange(today)
    ensures Ingest(message, today, extracted).Ok? ==>
      Ingest(message, today, extracted).value.currency == DefaultCurrency
      && Ingest(message, today, extracted).value.farmId == DefaultFarmId
  {
    var r := Ingest(message, today, extracted);
    if r.Ok? {
      var m := Normalize(message, today, extracted).value;
      assert r == BuildTransaction(m);
      assert ToUuid(m["farm_id"]) == Some(DefaultFarmId) by {
        DefaultFarmTextReadsBack();
      }
      BuiltFromDefaults(m);
    }
  }

  lemma BuiltFromDefaults(m: Record)
    requires BuildTransaction(m).Ok?
    requires ToUuid(m["farm_id"]) == Some(DefaultFarmId) && Get(m, "currency") == Str(DefaultCurrency)
    ensures BuildTransaction(m).value.currency == DefaultCurrency
    ensures BuildTransaction(m).value.farmId == DefaultFarmId
  {
  }

  /** A transaction is built only from a completed record, and it is the one built from that record. */
  lemma IngestBuilds(message: string, today: Date, extracted: Record)
    requires InRange(today) && Ingest(message, today, extracted).Ok?
    ensures Normalize(message, today, extracted).Ok?
    ensures Ingest(message, today, extracted) == BuildTransaction(Normalize(message, today, extracted).value)
  {
  }

  /** The completed record's date: the inferred one, or today, in place of a blank one. */
  lemma NormalizedDate(message: string, today: Date, extracted: Record)
    requires InRange(today) && Normalize(message, today, extracted).Ok?
    ensures var m := Normalize(message, today, extracted).value;
      Get(m, "date")
      == if IsBlankDate(Get(extracted, "date")) then Str(InferDate(message, today).value.GetOr(Iso(today)))
         else Get(extracted, "date")
  {
    var inferred := InferDate(message, today).value;
    var filled := FillDate(extracted, inferred, today);
    assert Normalize(message, today, extracted).value == ForceDefaults(DeriveUnitPrice(filled));
  }

  /** A blank date becomes today under "hoy" and with no cue at all, and yesterday under "ayer". */
  lemma BlankDateInferred(message: string, today: Date, extracted: Record)
    requires InRange(today) && IsBlankDate(Get(extracted, "date"))
    ensures var r := Ingest(message, today, extracted);
      var lower := Lower(message);
      (r.Ok? && (Contains(lower, "hoy") || !Contains(lower, "ayer")) ==> r.value.date == today)
      && (r.Ok? && !Contains(lower, "hoy") && Contains(lower, "ayer") ==> Ordinal(r.value.date) == Ordinal(today) - 1)
  {
    var r := Ingest(message, today, extracted);
    if r.Ok? {
      IngestBuilds(message, today, extracted);
      NormalizedDate(message, today, extracted);
      var inferred := InferDate(message, today).value;
      var m := Normalize(message, today, extracted).value;
      var d := r.value.date;
      assert Iso(d) == inferred.GetOr(Iso(today));
      if inferred.None? || inferred == Some(Iso(today)) {
        IsoInjective(d, today);
      } else {
        IsoRoundTrip(d);
      }
    }
  }

  /** A present date is taken as it stands: the transaction's date is the day it names, or nothing is built. */
  lemma PresentDateKept(message: string, today: Date, extracted: Record)
    requires InRange(today) && !IsBlankDate(Get(extracted, "date"))
    ensures var r := Ingest(message, today, extracted);
      (r.Ok? ==> Get(extracted, "date") == Str(Iso(r.value.date)))
      && (ParseDateField(Get(extracted, "date")).Err? ==> r.Err?)
  {
    var n := Normalize(message, today, extracted);
    if n.Ok? {
      assert Ingest(message, today, extracted) == BuildTransaction(n.value);
      NormalizedDate(message, today, extracted);
    }
  }

  /** A category or type outside its vocabulary makes the call fail: nothing is built. */
  lemma UnknownVocabularyRefused(message: string, today: Date, extracted: Record)
    requires InRange(today)
    requires (forall c: ActivityCategory :: Get(extracted, "activitycategory") != Str(c.Value()))
      || (Get(extracted, "type") != Str("ingreso") && Get(extracted, "type") != Str("gasto"))
    ensures Ingest(message, today, extracted).Err?
  {
    var r := Ingest(message, today, extracted);
    if r.Ok? {
      VocabularyIsExact(message, today, extracted);
    }
  }

  /**
   * A farm id that does not read as a UUID falls back to the default farm,
   * while a source message id that does not stays absent; ids written as
   * `str` writes them are kept.
   */
  lemma BuiltIdentifiers(m: Record, u: Uuid)
    requires BuildTransaction(m).Ok? && IsUuidValue(u)
    ensures var t := BuildTransaction(m).value;
      (ToUuid(m["farm_id"]).None? ==> t.farmId == DefaultFarmId)
      && (m["farm_id"] == Str(UuidText(u)) ==> t.farmId == u)
      && (ToUuid(Get(m, "source_message_id")).None? ==> t.sourceMessageId == None)
      && (Get(m, "source_message_id") == Str(UuidText(u)) ==> t.sourceMessageId == Some(u))
    ensures var t := BuildTransaction(m).value;
      t.farmId == (if ToUuid(m["farm_id"]).Some? then ToUuid(m["farm_id"]).value else DefaultFarmId)
      && t.sourceMessageId == ToUuid(Get(m, "source_message_id"))
  {
    ToUuidOfText(u);
  }

  /** The description is stored as the record's text, and the unit as its text when that is non-empty. */
  lemma BuiltTexts(m: Record)
    requires BuildTransaction(m).Ok?
    ensures var t := BuildTransaction(m).value;
      (forall s :: Get(m, "description") == Str(s) ==> t.description == Some(s))
      && (forall s :: Get(m, "unit") == Str(s) && s != "" ==> t.unit == Some(s))
      && (!Truthy(Get(m, "unit")) ==> t.unit == None)
  {
  }

  /** Currency falls back to "COP" when the record has none or an empty one, and is kept otherwise. */
  lemma BuiltCurrency(m: Record)
    requires BuildTransaction(m).Ok?
    ensures var t := BuildTransaction(m).value;
      (!Truthy(Get(m, "currency")) ==> t.currency == DefaultCurrency)
      && (forall s :: Get(m, "currency") == Str(s) && s != "" ==> t.currency == s)
  {
  }

  /** A category or type is stored only when the record held its exact string. */
  lemma VocabularyIsExact(message: string, today: Date, extracted: Record)
    requires InRange(today) && Ingest(message, today, extracted).Ok?
    ensures var t := Ingest(message, today, extracted).value;
      Get(extracted, "activitycategory") == Str(t.category.Value())
      && Get(extracted, "type") == Str(t.txnType.Value())
  {
    var m := Normalize(message, today, extracted).value;
    NormalizeKeepsOthers(message, today, extracted, "activitycategory");
    NormalizeKeepsOthers(message, today, extracted, "type");
    assert Ingest(message, today, extracted) == BuildTransaction(m);
  }

  /** A unit price already in the record is never replaced; an empty one is kept too, and stores as nothing. */
  lemma UnitPriceKept(message: string, today: Date, extracted: Record)
    requires InRange(today) && !IsMissingPrice(Get(extracted, "unit_price"))
    ensures Normalize(message, today, extracted).Ok? ==>
      Get(Normalize(message, today, extracted).value, "unit_price") == Get(extracted, "unit_price")
    ensures Get(extracted, "unit_price") == Str("") && Ingest(message, today, extracted).Ok? ==>
      Ingest(message, today, extracted).value.unitPrice == None
  {
    var n := Normalize(message, today, extracted);
    if n.Ok? {
      NormalizedPrice(message, today, extracted);
      assert Ingest(message, today, extracted) == BuildTransaction(n.value);
      if BuildTransaction(n.value).Ok? {
        BuiltNumbers(n.value);
      }
    }
  }

  /** Without a quantity and a total that are both nonzero, no unit price is derived. */
  lemma NoPriceWithoutQuantityAndTotal(message: string, today: Date, extracted: Record)
    requires InRange(today)
    requires IsNoneOrZero(Get(extracted, "quantity")) || IsNoneOrZero(Get(extracted, "total_value"))
    ensures Normalize(message, today, extracted).Ok? ==>
      Get(Normalize(message, today, extracted).value, "unit_price") == Get(extracted, "unit_price")
  {
    if Normalize(message, today, extracted).Ok? {
      NormalizedPrice(message, today, extracted);
    }
  }

  /** Where the unit price of the completed record comes from. */
  lemma NormalizedPrice(message: string, today: Date, extracted: Record)
    requires InRange(today) && Normalize(message, today, extracted).Ok?
    ensures var m := Normalize(message, today, extracted).value;
      Get(m, "unit_price")
      == if DerivesPrice(extracted) then Quotient(Get(extracted, "total_value"), Get(extracted, "quantity"))
         else Get(extracted, "unit_price")
  {
    var filled := FillDate(extracted, InferDate(message, today).value, today);
    assert Normalize(message, today, extracted).value == ForceDefaults(DeriveUnitPrice(filled));
    assert Get(filled, "unit_price") == Get(extracted, "unit_price");
    assert Get(filled, "quantity") == Get(extracted, "quantity");
    assert Get(filled, "total_value") == Get(extracted, "total_value");
  }

  /** The numeric columns of a built transaction are the lenient integer readings of the record's fields. */
  lemma BuiltNumbers(m: Record)
    requires BuildTransaction(m).Ok?
    ensures var t := BuildTransaction(m).value;
      t.quantity == ToIntOrNone(Get(m, "quantity"))
      && t.unitPrice == ToIntOrNone(Get(m, "unit_price"))
      && t.totalValue == ToIntOrNone(Get(m, "total_value"))
  {
  }

  /** A total that the quantity divides gives the exact quotient, already a whole number of cents. */
  lemma QuotientOfMultiple(total: int, qty: int)
    requires qty != 0 && total % qty == 0
    ensures Quotient(Int(total), Int(qty)) == Float((total / qty) as real)
  {
    var k := total / qty;
    assert total == k * qty;
    RealOfProduct(k, qty);
    assert total as real / qty as real == k as real;
    RealOfProduct(k, 100);
    RoundWhole(k * 100);
  }

  lemma RealOfProduct(a: int, b: int)
    ensures (a * b) as real == a as real * b as real
  {
  }

  /**
   * A missing unit price with whole quantity and total, the quantity
   * dividing the total, is stored as their exact quotient.
   */
  lemma UnitPriceDivides(message: string, today: Date, extracted: Record, qty: int, total: int)
    requires InRange(today)
    requires IsMissingPrice(Get(extracted, "unit_price"))
    requires Get(extracted, "quantity") == Int(qty) && Get(extracted, "total_value") == Int(total)
    requires qty != 0 && total != 0 && total % qty == 0
    ensures Ingest(message, today, extracted).Ok? ==>
      Ingest(message, today, extracted).value.unitPrice == Some(total / qty)
  {
    var r := Ingest(message, today, extracted);
    if r.Ok? {
      var m := Normalize(message, today, extracted).value;
      assert r == BuildTransaction(m);
      NormalizedPrice(message, today, extracted);
      BuiltNumbers(m);
      QuotientOfMultiple(total, qty);
      var k := total / qty;
      assert Get(m, "unit_price") == Float(k as real);
      ToIntOrNoneWhole(k);
      assert r.value.unitPrice == ToIntOrNone(Float(k as real));
    }
  }

  /** Two kilos for 10000 is 5000 a kilo. */
  lemma UnitPriceExample(message: string, today: Date, extracted: Record)
    requires InRange(today)
    requires Get(extracted, "unit_price") == Null
    requires Get(extracted, "quantity") == Int(2) && Get(extracted, "total_value") == Int(10000)
    ensures Ingest(message, today, extracted).Ok? ==>
      Ingest(message, today, extracted).value.unitPrice == Some(5000)
  {
    UnitPriceDivides(message, today, extracted, 2, 10000);
  }

  /** In general the stored unit price is within 0.505 of `total / qty`: one rounding to cents, one to units. */
  lemma UnitPriceNearQuotient(message: string, today: Date, extracted: Record)
    requires InRange(today) && DerivesPrice(extracted)
    requires NumberOf(Get(extracted, "quantity")).Some? && NumberOf(Get(extracted, "total_value")).Some?
    ensures var q := NumberOf(Get(extracted, "total_value")).value / NumberOf(Get(extracted, "quantity")).value;
      Ingest(message, today, extracted).Ok? ==>
        Ingest(message, today, extracted).value.unitPrice.Some?
        && -0.505 <= q - Ingest(message, today, extracted).value.unitPrice.value as real <= 0.505
  {
    var r := Ingest(message, today, extracted);
    if r.Ok? {
      var m := Normalize(message, today, extracted).value;
      assert r == BuildTransaction(m);
      NormalizedPrice(message, today, extracted);
      BuiltNumbers(m);
      var price := Quotient(Get(extracted, "total_value"), Get(extracted, "quantity"));
      assert r.value.unitPrice == ToIntOrNone(price);
      PriceNearQuotient(Get(extracted, "total_value"), Get(extracted, "quantity"));
    }
  }

  /** Rounding the quotient to cents and then to units moves it by at most 0.505. */
  lemma PriceNearQuotient(total: Json, qty: Json)
    requires !IsNoneOrZero(qty) && NumberOf(total).Some? && NumberOf(qty).Some?
    ensures var p := ToIntOrNone(Quotient(total, qty));
      p.Some? && -0.505 <= NumberOf(total).value / NumberOf(qty).value - p.value as real <= 0.505
  {
    var price := Quotient(total, qty);
    assert FloatOf(price) == Some(price.f);
  }
}
