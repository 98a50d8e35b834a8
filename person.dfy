/**
 * The person record of the sample feature (com/randomco/models/Person.kt).
 */
module Persons {

  /** Declared in this order, which is also the order `sortedBy` uses. */
  datatype Gender = Male | Female | Other

  /** The enum's ordinal, on which Kotlin's `compareTo` for enums is based. */
  function GenderOrdinal(g: Gender): (n: nat)
    ensures n < 3
    ensures g == Male ==> n == 0
    ensures g == Female ==> n == 1
    ensures g == Other ==> n == 2
  {
    match g
    case Male => 0
    case Female => 1
    case Other => 2
  }

  /** The declaration order of the enum's constants is strict and total. */
  lemma GenderOrdinalInjective(a: Gender, b: Gender)
    ensures GenderOrdinal(a) == GenderOrdinal(b) <==> a == b
  {
  }

  /** Coordinates; the `Float` components are modelled as reals. */
  datatype LatLon = LatLon(latitude: real, longitude: real)

  datatype Location = Location(street: string, city: string, state: string, latLon: LatLon)

  datatype Picture = Picture(thumb: string, big: string)

  datatype Person = Person(
    name: string,
    surname: string,
    email: string,
    picture: Picture,
    phone: string,
    gender: Gender,
    favorite: bool,
    location: Location
  ) {
    /** The identity of a person is their email. */
    function Id(): string {
      email
    }
  }
}
