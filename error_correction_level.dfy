/** `ErrorCorrectionLevel`: the four levels of the enum and the letter handed
    to the Bacon encoder, `strtoupper(substr(value, 0, 1))`. */
module ErrorCorrectionLevels {

  datatype ErrorCorrectionLevel = Low | Medium | Quartile | High {

    /** The enum's string value. */
    function Value(): (v: string)
      ensures |v| >= 1
    {
      match this
      case Low => "low"
      case Medium => "medium"
      case Quartile => "quartile"
      case High => "high"
    }

    /** `toBaconErrorCorrectionLevel`: the name Bacon's `valueOf` receives. */
    function ToBaconLetter(): (letter: string)
      ensures |letter| == 1 && IsUpperAscii(letter[0])
      ensures letter[0] == ToUpper(Value()[0])
    {
      [ToUpper(Value()[0])]
    }
  }

  predicate IsLowerAscii(c: char) { 'a' <= c <= 'z' }

  predicate IsUpperAscii(c: char) { 'A' <= c <= 'Z' }

  /** `strtoupper` on one character: ASCII lower case to upper case, every
      other character unchanged. */
  function ToUpper(c: char): (u: char)
    ensures IsLowerAscii(c) ==> IsUpperAscii(u) && u as int == c as int - 32
    ensures !IsLowerAscii(c) ==> u == c
  {
    if IsLowerAscii(c) then (c as int - 32) as char else c
  }

  /** The mapping the Bacon encoder expects: L, M, Q and H. */
  lemma BaconLetters()
    ensures Low.ToBaconLetter() == "L"
    ensures Medium.ToBaconLetter() == "M"
    ensures Quartile.ToBaconLetter() == "Q"
    ensures High.ToBaconLetter() == "H"
  {
  }

  /** Distinct levels map to distinct letters. */
  lemma BaconLetterInjective(a: ErrorCorrectionLevel, b: ErrorCorrectionLevel)
    ensures a.ToBaconLetter() == b.ToBaconLetter() ==> a == b
  {
    BaconLetters();
  }
}
