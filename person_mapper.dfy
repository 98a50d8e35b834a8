/**
 * The network record of a person and its mapping to the app's `Person`
 * (com/randomco/network/NetworkModels.kt, com/randomco/models/PersonMapper.kt).
 */
module PersonMapping {
  import opened Persons

  datatype NetworkPicture = NetworkPicture(large: string, medium: string, thumbnail: string)
  datatype NetworkName = NetworkName(first: string, last: string, title: string)
  datatype NetworkLogin = NetworkLogin(username: string)
  datatype NetworkLocation = NetworkLocation(street: string, city: string, state: string, postcode: string)

  datatype NetworkPerson = NetworkPerson(
    gender: string,
    name: NetworkName,
    location: NetworkLocation,
    email: string,
    login: NetworkLogin,
    dob: string,
    registered: string,
    phone: string,
    cell: string,
    picture: NetworkPicture
  )

  /** The `when` over the gender string: exact matches only, everything else is Other. */
  function MapGender(gender: string): (g: Gender)
    ensures g == Male <==> gender == "male"
    ensures g == Female <==> gender == "female"
    ensures g == Other <==> gender != "male" && gender != "female"
  {
    if gender == "male" then Male
    else if gender == "female" then Female
    else Other
  }

  /**
   * `PersonMapper.invoke`. The location's coordinates come from
   * `generateRandomLocation`, which draws random numbers; they are the
   * parameter `latLon` here.
   */
  function MapPerson(n: NetworkPerson, latLon: LatLon): (p: Person)
    ensures p.name == n.name.first && p.surname == n.name.last
    ensures p.email == n.email && p.Id() == n.email && p.phone == n.phone
    ensures p.picture.big == n.picture.large && p.picture.thumb == n.picture.thumbnail
    ensures p.gender == MapGender(n.gender)
    ensures p.location == Location(n.location.street, n.location.city, n.location.state, latLon)
    ensures !p.favorite
  {
    Person(
      name := n.name.first,
      surname := n.name.last,
      email := n.email,
      picture := Picture(thumb := n.picture.thumbnail, big := n.picture.large),
      phone := n.phone,
      gender := MapGender(n.gender),
      favorite := false,
      location := Location(street := n.location.street, city := n.location.city,
                           state := n.location.state, latLon := latLon)
    )
  }

  /**
   * Two network records with the same email map to persons with the same
   * id, whatever coordinates are drawn for them; records with different
   * emails never collide.
   */
  lemma MappedIdsFollowEmails(a: NetworkPerson, b: NetworkPerson, la: LatLon, lb: LatLon)
    ensures MapPerson(a, la).Id() == MapPerson(b, lb).Id() <==> a.email == b.email
  {
  }

  /**
   * The record the mapper test uses: "male" maps to Male and, once the
   * random coordinates are replaced, the result is the expected person.
   */
  lemma MapperExample()
    ensures var n := NetworkPerson(
              "male", NetworkName("ritthy", "sanders", "mr"),
              NetworkLocation("6676 springfield road", "wells", "staffordshire", "OX6C 2 BN"),
              "ritthy.sanders@example.com", NetworkLogin("bigsnake650"),
              "1982 - 08 - 22 09:16:27", "2013 - 06-27 07:38:03", "017684 89648", "0735-393-842",
              NetworkPicture("https://randomuser.me/api/portraits/men/79.jpg",
                             "https ://randomuser.me/api/portraits/med/men/79.jpg",
                             "https://randomuser.me/api/portraits/thumb/men/79.jpg"));
            MapPerson(n, LatLon(0.0, 0.0))
            == Person("ritthy", "sanders", "ritthy.sanders@example.com",
                      Picture("https://randomuser.me/api/portraits/thumb/men/79.jpg",
                              "https://randomuser.me/api/portraits/men/79.jpg"),
                      "017684 89648", Male, false,
                      Location("6676 springfield road", "wells", "staffordshire", LatLon(0.0, 0.0)))
  {
  }
}
