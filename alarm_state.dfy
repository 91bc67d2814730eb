/** The panel modes of `enum AlarmState` in the repository, with the numeric
    values the enum gives them. */
module AlarmStates {
  import opened Wrappers


  datatype AlarmState = Disarmed | Armed | PartiallyArmed
  {
    /** The enum's numeric value: Disarmed = 0, Armed = 1, PartiallyArmed = 2. */
    function Code(): (n: nat)
      ensures n < 3
    {
      match this
      case Disarmed => 0
      case Armed => 1
      case PartiallyArmed => 2
    }
  }

  /** The enum member with a given numeric value. */
  function FromCode(n: nat): (r: Option<AlarmState>)
    ensures r.Some? <==> n < 3
    ensures r.Some? ==> r.value.Code() == n
  {
    if n == 0 then Some(Disarmed)
    else if n == 1 then Some(Armed)
    else if n == 2 then Some(PartiallyArmed)
    else None
  }

  /** The numeric values identify the modes. */
  lemma CodeRoundTrip(s: AlarmState)
    ensures FromCode(s.Code()) == Some(s)
  {
  }
}
