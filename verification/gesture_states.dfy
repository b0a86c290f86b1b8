/**
 * The gesture-handler state enumeration as seen by the drawer handlers, the
 * events they receive, and the diagnostic name of a state.
 *
 * The host library's numeric codes for the six known states are not part of
 * this model: a state is one of the six constructors, or `Unrecognized(code)`
 * for any value that matches none of them.
 */
module GestureStates {
  import opened Options

  datatype GestureState =
    | Undetermined
    | Began
    | Failed
    | Cancelled
    | Active
    | End
    // Stands only for values that match none of the six states above.
    | Unrecognized(code: int)

  /** The payload of an `onHandlerStateChange` callback of a vertical pan handler. */
  datatype HandlerEvent = HandlerEvent(
    oldState: GestureState,
    state: GestureState,
    translationY: real,
    velocityY: real)

  /**
   * A state change reaches the release logic exactly when the handler leaves
   * the state whose diagnostic name is ACTIVE, whatever state it enters.
   */
  function EndsActive(e: HandlerEvent): (r: bool)
    ensures r <==> StateName(e.oldState) == "ACTIVE"
  {
    e.oldState == Active
  }

  const InvalidPrefix: string := "Invalid gesture state: "

  // ---------------------------------------------------------------------------
  // Decimal rendering of integers, as a template literal writes a small integer
  // ---------------------------------------------------------------------------

  predicate IsDigit(c: char) {
    '0' <= c <= '9'
  }

  function DigitChar(d: nat): (c: char)
    requires d < 10
    ensures IsDigit(c)
  {
    ('0' as int + d) as char
  }

  function DigitValue(c: char): nat {
    if IsDigit(c) then (c as int - '0' as int) else 0
  }

  predicate IsDigits(s: string) {
    forall i :: 0 <= i < |s| ==> IsDigit(s[i])
  }

  /** A non-empty run of digits without a superfluous leading zero. */
  predicate IsCanonicalNat(s: string) {
    |s| > 0 && IsDigits(s) && (|s| > 1 ==> s[0] != '0')
  }

  /** A canonical natural numeral, or a minus sign before a non-zero one. */
  predicate IsCanonicalInt(s: string) {
    || IsCanonicalNat(s)
    || (|s| > 1 && s[0] == '-' && IsCanonicalNat(s[1..]) && s[1] != '0')
  }

  /** The shortest decimal numeral of `n`, most significant digit first. */
  function NatToDecimal(n: nat): (s: string)
    ensures IsCanonicalNat(s)
    ensures s[0] == '0' <==> n == 0
    decreases n
  {
    if n < 10 then [DigitChar(n)] else NatToDecimal(n / 10) + [DigitChar(n % 10)]
  }

  function DecimalToNat(s: string): nat
    decreases |s|
  {
    if |s| == 0 then 0 else 10 * DecimalToNat(s[..|s| - 1]) + DigitValue(s[|s| - 1])
  }

  /** `${i}` for an integer `i`: a minus sign for negatives, then the digits. */
  function IntToDecimal(i: int): (s: string)
    ensures IsCanonicalInt(s)
    ensures s[0] == '-' <==> i < 0
  {
    if i < 0 then "-" + NatToDecimal(-i) else NatToDecimal(i)
  }

  function DecimalToInt(s: string): int {
    if |s| > 0 && s[0] == '-' then 0 - DecimalToNat(s[1..]) else DecimalToNat(s)
  }

  lemma {:induction false} NatDecimalRoundTrip(n: nat)
    ensures DecimalToNat(NatToDecimal(n)) == n
    decreases n
  {
    if n >= 10 {
      var s := NatToDecimal(n);
      assert s[..|s| - 1] == NatToDecimal(n / 10);
      NatDecimalRoundTrip(n / 10);
    }
  }

  lemma IntDecimalRoundTrip(i: int)
    ensures DecimalToInt(IntToDecimal(i)) == i
  {
    if i < 0 {
      var d := NatToDecimal(-i);
      assert ("-" + d)[1..] == d;
      NatDecimalRoundTrip(-i);
    } else {
      var d := NatToDecimal(i);
      assert IsDigit(d[0]);
      NatDecimalRoundTrip(i);
    }
  }

  /** A canonical numeral is the one `NatToDecimal` writes for its value. */
  lemma {:induction false} CanonicalNatUnique(s: string)
    requires IsCanonicalNat(s)
    ensures NatToDecimal(DecimalToNat(s)) == s
    decreases |s|
  {
    var last := s[|s| - 1];
    assert DigitChar(DigitValue(last)) == last;
    if |s| > 1 {
      var init := s[..|s| - 1];
      assert init[0] == s[0];
      CanonicalNatUnique(init);
      var v := DecimalToNat(init);
      assert v != 0 by {
        assert NatToDecimal(v)[0] != '0';
      }
      assert s == init + [last];
    }
  }

  /** A canonical integer numeral is the one `IntToDecimal` writes for its value. */
  lemma CanonicalIntUnique(s: string)
    requires IsCanonicalInt(s)
    ensures IntToDecimal(DecimalToInt(s)) == s
  {
    if IsCanonicalNat(s) {
      assert s[0] != '-';
      CanonicalNatUnique(s);
    } else {
      var digits := s[1..];
      CanonicalNatUnique(digits);
      assert DecimalToNat(digits) != 0 by {
        assert NatToDecimal(DecimalToNat(digits))[0] != '0';
      }
      assert s == "-" + digits;
    }
  }

  // ---------------------------------------------------------------------------
  // getStateNameFromEnum
  // ---------------------------------------------------------------------------

  /**
   * The diagnostic name of a state. Total: an unrecognized value is reported
   * in the name instead of raising an error.
   */
  function StateName(s: GestureState): (name: string)
    ensures s.Unrecognized? <==> |name| >= |InvalidPrefix| && name[..|InvalidPrefix|] == InvalidPrefix
    ensures s.Unrecognized? ==> IsCanonicalInt(name[|InvalidPrefix|..])
    ensures s.Unrecognized? ==> DecimalToInt(name[|InvalidPrefix|..]) == s.code
  {
    match s
    case Undetermined => "UNDETERMINED"
    case Began => "BEGAN"
    case Failed => "FAILED"
    case Cancelled => "CANCELLED"
    case Active => "ACTIVE"
    case End => "END"
    case Unrecognized(code) =>
      var name := InvalidPrefix + IntToDecimal(code);
      assert name[|InvalidPrefix|..] == IntToDecimal(code);
      IntDecimalRoundTrip(code);
      name
  }

  /** Reads a diagnostic name back into the state it names. */
  function ParseStateName(name: string): Option<GestureState> {
    if name == "UNDETERMINED" then Some(Undetermined)
    else if name == "BEGAN" then Some(Began)
    else if name == "FAILED" then Some(Failed)
    else if name == "CANCELLED" then Some(Cancelled)
    else if name == "ACTIVE" then Some(Active)
    else if name == "END" then Some(End)
    else if |name| >= |InvalidPrefix| && name[..|InvalidPrefix|] == InvalidPrefix then
      Some(Unrecognized(DecimalToInt(name[|InvalidPrefix|..])))
    else None
  }

  /** Every state's name reads back as that state. */
  lemma StateNameRoundTrip(s: GestureState)
    ensures ParseStateName(StateName(s)) == Some(s)
  {
  }

  /** Distinct states never share a diagnostic name. */
  lemma StateNamesDistinct(a: GestureState, b: GestureState)
    ensures StateName(a) == StateName(b) ==> a == b
  {
    StateNameRoundTrip(a);
    StateNameRoundTrip(b);
  }
}
