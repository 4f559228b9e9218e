/** The records the dashboard loads: one Country per entry of the data file. */
module Models {

  /** One country's attendance at one Olympic Games. */
  datatype Participation = Participation(
    id: int,
    year: int,
    city: string,
    medalsCount: int,
    athleteCount: int)

  /** A country and the Games it attended, in the order of the data file. */
  datatype Country = Country(country: string, participations: seq<Participation>)
}
