/** The records that several parts of the application exchange: users as
    they appear inside a duo, and duos themselves. */
module Entities {
  import opened Wrappers

  type UserId = string
  type DuoId = string

  /** A user as joined into a duo row: `user1:user1_id(id, name, email)`.
      A column the join did not deliver is `None`. */
  datatype UserRef = UserRef(id: UserId, name: Option<string>, email: Option<string>)

  /** A duo: two users, a title, an optional bio, photo URLs and an optional
      location. */
  datatype Duo = Duo(
    id: DuoId,
    title: string,
    bio: Option<string>,
    photos: seq<string>,
    user1: UserRef,
    user2: UserRef,
    latitude: Option<real>,
    longitude: Option<real>)
  {
    /** `duo.user1.id === userId || duo.user2.id === userId`. */
    predicate HasMember(u: UserId) {
      user1.id == u || user2.id == u
    }
  }
}
