/** The enumerations of types.ts, as closed datatypes. */
module Types {

  /** AppState (types.ts:13-19). UPLOADING is declared by the source but never entered. */
  datatype AppState = Idle | Uploading | Generating | Success | Error

  /** AspectRatioType (types.ts:21): the three fixed choices and the custom marker. */
  datatype AspectRatioType = Ratio1x1 | Ratio16x9 | Ratio9x16 | Custom

  /** The five aspect-ratio ids the image service accepts. */
  datatype RatioToken = R1x1 | R3x4 | R4x3 | R9x16 | R16x9
  {
    /** The id string sent to the service. */
    function Id(): string
    {
      match this
      case R1x1 => "1:1"
      case R3x4 => "3:4"
      case R4x3 => "4:3"
      case R9x16 => "9:16"
      case R16x9 => "16:9"
    }
  }
}
