/** The five slider values a run is started with. The slider components and
    the registry that hands their values out are not part of this model. */
module Config {

  /** What a slider's `value` holds: the number it is initialised with, or,
      once the user has moved the slider, the decimal string the range input
      reports (`event.srcElement.value`). The component's arithmetic and
      comparisons convert either to the same number `n`; only
      `JSON.stringify` tells the two apart. */
  datatype SliderValue = Number(n: int) | Text(n: int)

  datatype Params = Params(
    infectiousness: SliderValue,
    doctors: SliderValue,
    patients: SliderValue,
    infected: SliderValue,
    cycles: SliderValue
  )
}
