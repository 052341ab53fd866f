/** Concrete client sessions and the falsy values a post refuses. */
module Scenarios {
  import opened Maybe
  import opened Json
  import opened CoinStore
  import opened Handlers
  import opened Sessions

  /** Each falsy `coin` (absent, `null`, `false`, `0`, `""`) is refused with
      400 and leaves the store as it was, even when the store is failing. */
  lemma FalsyCoinRefused(store: Store, user: UserId, fault: bool)
    ensures forall coin :: coin in [Null, Bool(false), Num(0), Str("")] ==>
      Step(store, Post(user, Obj(map["coin" := coin])), fault) == (store, Response(400, Error(CoinRequired)))
    ensures Step(store, Post(user, Obj(map[])), fault) == (store, Response(400, Error(CoinRequired)))
    ensures forall body: Value :: !body.Obj? ==> Step(store, Post(user, body), fault) == (store, Response(400, Error(CoinRequired)))
  {
  }

  /** A `coins` that is not an array, even a string of the same text, is
      refused with 400 and leaves the store as it was. */
  lemma NonArrayCoinsRefused(store: Store, user: UserId, fault: bool, v: Value)
    requires !v.Arr?
    ensures Step(store, Put(user, Obj(map["coins" := v])), fault) == (store, Response(400, Error(CoinsMustBeArray)))
  {
  }

  /** Post "gold", read, replace with ["silver", "bronze"], read. */
  lemma AliceSession()
    ensures
      var reqs := [Post("alice", CoinBody("gold")), Get("alice"),
                   Put("alice", CoinsBody(["silver", "bronze"])), Get("alice")];
      Run(map[], reqs, Healthy(4)) ==
        (map["alice" := ["silver", "bronze"]],
         [Response(201, Coins(["gold"])), Response(200, Coins(["gold"])),
          Response(200, Coins(["silver", "bronze"])), Response(200, Coins(["silver", "bronze"]))])
  {
    var empty: Store := map[];
    var s1 := map["alice" := ["gold"]];
    var s3 := map["alice" := ["silver", "bronze"]];
    var post := Post("alice", CoinBody("gold"));
    var put := Put("alice", CoinsBody(["silver", "bronze"]));
    assert s1["alice" := ["silver", "bronze"]] == s3;
    var r1 := Response(201, Coins(["gold"]));
    var r2 := Response(200, Coins(["gold"]));
    var r3 := Response(200, Coins(["silver", "bronze"]));
    assert Step(empty, post, false) == (s1, r1);
    assert Step(s1, Get("alice"), false) == (s1, r2);
    assert Step(s1, put, false) == (s3, r3);
    assert Step(s3, Get("alice"), false) == (s3, r3);
    RunSingle(s3, Get("alice"), false);
    RunCons(s1, put, false, [Get("alice")], [false]);
    assert [put] + [Get("alice")] == [put, Get("alice")];
    assert [false] + [false] == [false, false];
    assert [r3] + [r3] == [r3, r3];
    assert Run(s1, [put, Get("alice")], [false, false]) == (s3, [r3, r3]);
    RunCons(s1, Get("alice"), false, [put, Get("alice")], [false, false]);
    assert [Get("alice")] + [put, Get("alice")] == [Get("alice"), put, Get("alice")];
    assert [false] + [false, false] == [false, false, false];
    assert [r2] + [r3, r3] == [r2, r3, r3];
    assert Run(s1, [Get("alice"), put, Get("alice")], [false, false, false]) == (s3, [r2, r3, r3]);
    RunCons(empty, post, false, [Get("alice"), put, Get("alice")], [false, false, false]);
    assert [post] + [Get("alice"), put, Get("alice")] == [post, Get("alice"), put, Get("alice")];
    assert [false] + [false, false, false] == Healthy(4);
    assert [r1] + [r2, r3, r3] == [r1, r2, r3, r3];
  }

  /** Reading a user with no prior activity. */
  lemma BobSession()
    ensures Run(map[], [Get("bob")], [false]) == (map[], [Response(200, Coins([]))])
  {
    RunSingle(map[], Get("bob"), false);
  }

  /** A post without a `coin` field is refused, and a later read still sees
      an empty list. */
  lemma CarolSession(store: Store)
    requires "carol" !in store
    ensures Run(store, [Post("carol", Obj(map[])), Get("carol")], [false, false]) ==
      (store, [Response(400, Error(CoinRequired)), Response(200, Coins([]))])
  {
    RunSingle(store, Get("carol"), false);
    RunCons(store, Post("carol", Obj(map[])), false, [Get("carol")], [false]);
    assert [Post("carol", Obj(map[]))] + [Get("carol")] == [Post("carol", Obj(map[])), Get("carol")];
    assert [Response(400, Error(CoinRequired))] + [Response(200, Coins([]))]
        == [Response(400, Error(CoinRequired)), Response(200, Coins([]))];
  }
}
