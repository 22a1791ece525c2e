/**
 * Surface dissipation laws (src/heat_equations.py). Only the forced-convection
 * law is modelled: the natural-convection law raises (T - 20) to the power 4/3,
 * which has no real value below the ambient temperature.
 */
module HeatEquations {

  /** Ambient air temperature, in degrees Celsius, built into both laws. */
  const AMBIENT_TEMP: real := 20.0

  /** Wind speed, in m/s, at which the forced-convection coefficient was evaluated. */
  const WIND_SPEED: real := 20.0

  /** Heat flux (W/m^2) lost by forced convection; surfaceTemp in degrees Celsius. */
  function ForcedDissipation(surfaceTemp: real): (flux: real)
    ensures flux > 0.0 <==> surfaceTemp > AMBIENT_TEMP
    ensures flux < 0.0 <==> surfaceTemp < AMBIENT_TEMP
    ensures flux == 0.0 <==> surfaceTemp == AMBIENT_TEMP
  {
    125.4 * (surfaceTemp - 20.0)
  }

  /** The general forced-convection law: coefficient 11.4 + 5.7 v times the excess temperature. */
  function ForcedConvection(windSpeed: real, surfaceTemp: real, ambientTemp: real): real
  {
    (11.4 + 5.7 * windSpeed) * (surfaceTemp - ambientTemp)
  }

  /** forced_dissipation is the general law at a 20 m/s wind and a 20 degree ambient. */
  lemma ForcedDissipationIsConvectionLaw(surfaceTemp: real)
    ensures ForcedDissipation(surfaceTemp) == ForcedConvection(WIND_SPEED, surfaceTemp, AMBIENT_TEMP)
  {
  }

  lemma ForcedDissipationAtAmbient()
    ensures ForcedDissipation(AMBIENT_TEMP) == 0.0
  {
  }

  /** The flux grows strictly with the surface temperature, at 125.4 W/m^2 per degree. */
  lemma ForcedDissipationIncreasing(t1: real, t2: real)
    requires t1 < t2
    ensures ForcedDissipation(t1) < ForcedDissipation(t2)
    ensures ForcedDissipation(t2) - ForcedDissipation(t1) == 125.4 * (t2 - t1)
  {
  }
}
