/** The record shapes of the application (the `User`, `FavoriteContact` and
    `HourlyStats` interfaces). */
module Types {

  datatype Name = Name(first: string, last: string)

  datatype Picture = Picture(large: string, medium: string, thumbnail: string)

  /** A contact as fetched from the remote source. Only `id` matters to the
      favorites store; the rest is carried along as a snapshot. */
  datatype User = User(id: string, name: Name, email: string, phone: string, picture: Picture)

  /** One persisted favorite: the contact's id, a copy of the contact taken when it
      was favorited, and the moment of favoriting in milliseconds since the epoch. */
  datatype FavoriteContact = FavoriteContact(id: string, user: User, timestamp: int)

  /** One bucket of the activity histogram: an hour of the day and a count. */
  datatype HourlyStats = HourlyStats(hour: int, count: nat)
}
