/** Trip records with their derived time columns, and the per-city schema. */
module Trips {
  import opened Wrappers

  /** Which optional columns a city's file carries (Chicago and New York City
      carry both, Washington neither). */
  datatype Schema = Schema(hasGender: bool, hasBirthYear: bool)

  /** One row of a city's table after the start time has been parsed. `month`
      (1-12), `weekday` (a title-case day name such as "Friday") and `hour`
      (0-23) are the columns the loader derives from the start time. A gender
      or birth year that is None is a missing cell, or a column the schema
      lacks. */
  datatype Trip = Trip(
    startStation: string,
    endStation: string,
    duration: int,
    userType: string,
    gender: Option<string>,
    birthYear: Option<int>,
    month: int,
    weekday: string,
    hour: int)

  /** A city's table: its schema and its rows, in file order. */
  datatype Table = Table(schema: Schema, rows: seq<Trip>)

  function CitySchema(city: string): Schema
  {
    if city == "washington" then Schema(false, false) else Schema(true, true)
  }
}
