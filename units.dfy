/**
 * Conversion of a Kelvin temperature to the configured display scale
 * (main.py:40-53). Exact rationals stand in for Python floats.
 */
module Units {

  /** Offset between the Kelvin and Celsius scales, as written in main.py:41 and 45. */
  const CelsiusOffset: real := 273.15

  /** kelvin_to_celsius: degrees Celsius for a Kelvin reading. */
  function KelvinToCelsius(kelvin: real): (celsius: real)
    ensures CelsiusToKelvin(celsius) == kelvin
    ensures kelvin < CelsiusOffset <==> celsius < 0.0
  {
    kelvin - CelsiusOffset
  }

  /** kelvin_to_fahrenheit: degrees Fahrenheit for a Kelvin reading. */
  function KelvinToFahrenheit(kelvin: real): (fahrenheit: real)
    ensures FahrenheitToKelvin(fahrenheit) == kelvin
    ensures fahrenheit == KelvinToCelsius(kelvin) * 9.0 / 5.0 + 32.0
  {
    (kelvin - CelsiusOffset) * 9.0 / 5.0 + 32.0
  }

  /** The inverse of KelvinToCelsius: the partner the round trips are stated against. */
  function CelsiusToKelvin(celsius: real): real
  {
    celsius + CelsiusOffset
  }

  /** The inverse of KelvinToFahrenheit. */
  function FahrenheitToKelvin(fahrenheit: real): real
  {
    (fahrenheit - 32.0) * 5.0 / 9.0 + CelsiusOffset
  }

  /**
   * convert_temperature: the scale name "Celsius" or "Fahrenheit" selects a
   * conversion; every other name (including "Kelvin") passes the value through.
   */
  function ConvertTemperature(scale: string, kelvin: real): (display: real)
    ensures DisplayToKelvin(scale, display) == kelvin
  {
    if scale == "Celsius" then KelvinToCelsius(kelvin)
    else if scale == "Fahrenheit" then KelvinToFahrenheit(kelvin)
    else kelvin
  }

  /** Reading a display value back into Kelvin under the same scale name. */
  function DisplayToKelvin(scale: string, display: real): real
  {
    if scale == "Celsius" then CelsiusToKelvin(display)
    else if scale == "Fahrenheit" then FahrenheitToKelvin(display)
    else display
  }

  /** Any scale other than the two named ones leaves the Kelvin value unchanged. */
  lemma PassThrough(scale: string, kelvin: real)
    requires scale != "Celsius" && scale != "Fahrenheit"
    ensures ConvertTemperature(scale, kelvin) == kelvin
  {
  }

  /** Conversion loses nothing: the display value determines the Kelvin value. */
  lemma ConvertRoundTrip(scale: string, kelvin: real)
    ensures DisplayToKelvin(scale, ConvertTemperature(scale, kelvin)) == kelvin
  {
  }

  /** Every display value is the image of exactly one Kelvin value. */
  lemma DisplayRoundTrip(scale: string, display: real)
    ensures ConvertTemperature(scale, DisplayToKelvin(scale, display)) == display
  {
  }

  /**
   * Every scale preserves strict order: a Kelvin reading lies above a Kelvin
   * bound exactly when its display value lies above the bound's display
   * value. A bound given in display units must itself be converted first.
   */
  lemma ConvertPreservesOrder(scale: string, k1: real, k2: real)
    ensures k1 < k2 <==> ConvertTemperature(scale, k1) < ConvertTemperature(scale, k2)
  {
  }

  /** Water freezes at 0 degrees Celsius and 32 degrees Fahrenheit. */
  lemma FreezingPoint()
    ensures ConvertTemperature("Celsius", 273.15) == 0.0
    ensures ConvertTemperature("Fahrenheit", 273.15) == 32.0
    ensures ConvertTemperature("Kelvin", 273.15) == 273.15
  {
  }
}
