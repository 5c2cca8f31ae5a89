/** The tables the handlers read and write, held in memory. `Db` is the schema of the
    layered service (promos keyed by `promo_id`, users by id, the activation, like and
    comment tables); `LegacyDb` is the schema of the older routers, whose users are
    looked up by e-mail and keep country and age in a free-form JSON column. */
module Store {
  import opened Base

  /** A user as the activation and feed logic sees it: the targeting settings are
      optional because the profile may not have them. */
  datatype UserRow = UserRow(id: Uuid, email: string, country: Option<string>, age: Option<int>)

  /** A row of `user_activated_promos`: who activated what, how many entries the
      history shows for it, when, and which position of the unique-code pool the
      user was handed. */
  datatype ActivationRow = ActivationRow(userId: Uuid, promoId: Uuid, slot: nat, count: nat, date: Instant)

  datatype CommentRow = CommentRow(promoId: Uuid, authorId: Uuid, text: string, date: Instant)

  class Db {
    var promos: map<Uuid, PromoRow>
    var users: map<Uuid, UserRow>
    var activations: seq<ActivationRow>
    /** (user id, promo id) pairs of `user_liked_promos`. */
    var likes: set<(Uuid, Uuid)>
    var comments: map<Uuid, CommentRow>

    constructor ()
      ensures promos == map[] && users == map[] && activations == []
      ensures likes == {} && comments == map[]
    {
      promos := map[];
      users := map[];
      activations := [];
      likes := {};
      comments := map[];
    }
  }

  class LegacyDb {
    var promos: map<Uuid, PromoRow>
    var users: map<string, UserRow>

    constructor ()
      ensures promos == map[] && users == map[]
    {
      promos := map[];
      users := map[];
    }
  }
}
