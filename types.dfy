/** The record the generation service returns (types.ts) and the nullable
    slots the component keeps it and its error message in. */
module Types {

  /** A React state slot that may hold `null`. */
  datatype Option<T> = None | Some(value: T)

  /** One generated pitch. The component stores and displays it without
      ever looking inside, so its fields carry no constraints here. */
  datatype PitchData = PitchData(
    elevatorPitch: string,
    slideBullets: seq<string>,
    tagline: string,
    valueProposition: string,
    competitors: seq<string>,
    revenueModels: seq<string>
  )
}
