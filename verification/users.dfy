/**
 The user record the dashboard receives from its data source. Only the
 fields that some computation reads are kept: the identifier's value, the
 first and last name, the e-mail address and the country.
 */
module Users {

  datatype User = User(
    id: string,       // `id.value`
    first: string,    // `name.first`
    last: string,     // `name.last`
    email: string,
    country: string   // `location.country`
  )
}
