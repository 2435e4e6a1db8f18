/** `LabelAlignment`: the enum of label positions and its validated
    construction from a string. */
module LabelAlignments {
  import opened Errors

  datatype LabelAlignment = Left | Center | Right {
    function Value(): string {
      match this
      case Left => "left"
      case Center => "center"
      case Right => "right"
    }
  }

  /** `new LabelAlignment($value)`: the enum constructor accepts exactly its
      three values and throws `UnexpectedValueException` for anything else. */
  function FromValue(value: string): (r: Result<LabelAlignment>)
    ensures r.Ok? <==> value in {"left", "center", "right"}
    ensures r.Ok? ==> r.value.Value() == value
    ensures r.Err? ==> r.error == UnexpectedValueException(value)
  {
    if value == "left" then Ok(Left)
    else if value == "center" then Ok(Center)
    else if value == "right" then Ok(Right)
    else Err(UnexpectedValueException(value))
  }

  /** Construction from a value gives back the same alignment. */
  lemma FromValueRoundTrip(a: LabelAlignment)
    ensures FromValue(a.Value()) == Ok(a)
  {
  }
}
