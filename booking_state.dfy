/**
 * The filter a client names when listing bookings, and its parser
 * `BookingState.convert`: a case-sensitive match against the constants'
 * names that never fails.
 */
module BookingStates {
  import opened Common

  datatype BookingState = ALL | CURRENT | PAST | FUTURE | WAITING | REJECTED | UNKNOWN

  /** The constants in declaration order, as `values()` lists them. */
  const Values: seq<BookingState> := [ALL, CURRENT, PAST, FUTURE, WAITING, REJECTED, UNKNOWN]

  /** The constant's name, as `toString()` gives it. */
  function Name(s: BookingState): string {
    match s
    case ALL => "ALL"
    case CURRENT => "CURRENT"
    case PAST => "PAST"
    case FUTURE => "FUTURE"
    case WAITING => "WAITING"
    case REJECTED => "REJECTED"
    case UNKNOWN => "UNKNOWN"
  }

  /** `values()` lists every constant. */
  lemma ValuesComplete()
    ensures forall c :: c in Values
  {
    forall c ensures c in Values {
      var i := match c
        case ALL => 0 case CURRENT => 1 case PAST => 2 case FUTURE => 3
        case WAITING => 4 case REJECTED => 5 case UNKNOWN => 6;
      assert Values[i] == c;
    }
  }

  /** Different constants have different names. */
  lemma NamesDistinct(a: BookingState, b: BookingState)
    requires Name(a) == Name(b)
    ensures a == b
  {
    // The names differ in length or in their first three characters.
    assert Name(a)[..3] == Name(b)[..3];
  }

  /**
   * The loop of `convert`: the first of `candidates` whose name equals `str`,
   * and UNKNOWN once the candidates are exhausted. A null `str` equals no name.
   */
  function ConvertFrom(candidates: seq<BookingState>, str: Option<string>): (r: BookingState)
    ensures (exists c :: c in candidates && str == Some(Name(c))) ==> r in candidates && str == Some(Name(r))
    ensures (forall c :: c in candidates ==> str != Some(Name(c))) ==> r == UNKNOWN
  {
    if candidates == [] then UNKNOWN
    else if str == Some(Name(candidates[0])) then candidates[0]
    else ConvertFrom(candidates[1..], str)
  }

  /** `BookingState.convert`. */
  function Convert(str: Option<string>): (r: BookingState)
    ensures str == Some(Name(r)) || (r == UNKNOWN && forall c :: str != Some(Name(c)))
  {
    ValuesComplete();
    ConvertFrom(Values, str)
  }

  /** Every constant's own name parses back to that constant, UNKNOWN included. */
  lemma ConvertName(c: BookingState)
    ensures Convert(Some(Name(c))) == c
  {
    var r := Convert(Some(Name(c)));
    if r != c {
      NamesDistinct(r, c);
    }
  }

  /** A string parses to a constant other than UNKNOWN exactly when it is that constant's name. */
  lemma ConvertRecognises(str: Option<string>, c: BookingState)
    requires c != UNKNOWN
    ensures Convert(str) == c <==> str == Some(Name(c))
  {
    if str == Some(Name(c)) {
      ConvertName(c);
    }
  }

  /** Matching is case-sensitive: lower-case or capitalised names are not recognised. */
  lemma ConvertIsCaseSensitive()
    ensures Convert(Some("all")) == UNKNOWN
    ensures Convert(Some("Current")) == UNKNOWN
    ensures Convert(Some("past")) == UNKNOWN
  {
  }

  /** Null, and the names of booking statuses that are not filters, parse to UNKNOWN. */
  lemma ConvertUnrecognised()
    ensures Convert(None) == UNKNOWN
    ensures Convert(Some("APPROVED")) == UNKNOWN
    ensures Convert(Some("CANCELED")) == UNKNOWN
    ensures Convert(Some("")) == UNKNOWN
  {
  }
}
