/** The persistent `quiz-coins` collection: at most one record per user id,
    each holding an ordered list of coins. `findOne` is a map lookup and
    `save` is one atomic upsert of the whole record. */
module CoinStore {
  import opened Maybe

  type UserId = string
  type Coin = string
  type Store = map<UserId, seq<Coin>>

  /** `Coin.findOne({ userId })`: the user's record, if one exists. */
  function Find(store: Store, user: UserId): Option<seq<Coin>> {
    if user in store then Some(store[user]) else None
  }

  /** The list a reader sees: a missing record reads as the empty list. */
  function CoinsOf(store: Store, user: UserId): seq<Coin> {
    if user in store then store[user] else []
  }

  /** `userCoins.save()`: creates the record if absent, otherwise overwrites
      its list; no other record is touched. */
  function Save(store: Store, user: UserId, coins: seq<Coin>): (r: Store)
    ensures Find(r, user) == Some(coins)
    ensures r.Keys == store.Keys + {user}
    ensures OnlyTouches(store, r, user)
  {
    store[user := coins]
  }

  /** Every record other than `user`'s is the same in `after` as in `before`,
      including whether it exists. */
  ghost predicate OnlyTouches(before: Store, after: Store, user: UserId) {
    forall u :: u != user ==> Find(after, u) == Find(before, u)
  }
}
