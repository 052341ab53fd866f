/** Sequences of requests served one after another, and what a client observes across them: appends accumulate in order,
    a replace fixes the list exactly, rejected requests change nothing, and
    one user's requests never reach another user's record. */
module Sessions {
  import opened Maybe
  import opened Json
  import opened CoinStore
  import opened Handlers

  /** Serves `reqs` in order, threading the store through; `faults[i]` says
      whether the store fails while serving `reqs[i]`. */
  function Run(store: Store, reqs: seq<Request>, faults: seq<bool>): (res: (Store, seq<Response>))
    requires |faults| == |reqs|
    ensures |res.1| == |reqs|
    decreases |reqs|
  {
    if reqs == [] then (store, [])
    else
      var first := Step(store, reqs[0], faults[0]);
      var rest := Run(first.0, reqs[1..], faults[1..]);
      (rest.0, [first.1] + rest.1)
  }

  /** The fault pattern of `n` requests against a store that never fails. */
  function Healthy(n: nat): (r: seq<bool>)
    ensures |r| == n
  {
    seq(n, _ => false)
  }

  /** Serving `req` and then `reqs` is one step followed by the rest of the
      run. */
  lemma RunCons(store: Store, req: Request, fault: bool, reqs: seq<Request>, faults: seq<bool>)
    requires |faults| == |reqs|
    ensures
      var first := Step(store, req, fault);
      var rest := Run(first.0, reqs, faults);
      Run(store, [req] + reqs, [fault] + faults) == (rest.0, [first.1] + rest.1)
  {
    assert ([req] + reqs)[1..] == reqs;
    assert ([fault] + faults)[1..] == faults;
  }

  /** A run of one request is that request's step. */
  lemma RunSingle(store: Store, req: Request, fault: bool)
    ensures
      var first := Step(store, req, fault);
      Run(store, [req], [fault]) == (first.0, [first.1])
  {
    RunCons(store, req, fault, [], []);
    assert [req] + [] == [req];
    assert [fault] + [] == [fault];
    assert [Step(store, req, fault).1] + [] == [Step(store, req, fault).1];
  }

  /** The body `{ coin: c }`. */
  function CoinBody(c: Coin): Value {
    Obj(map["coin" := Str(c)])
  }

  /** The body `{ coins: [...] }`. */
  function CoinsBody(coins: seq<Coin>): Value {
    Obj(map["coins" := FromCoinList(coins)])
  }

  /** One `POST /:user_id/coins` per coin, in order. */
  function Posts(user: UserId, coins: seq<Coin>): (r: seq<Request>)
    ensures |r| == |coins|
  {
    seq(|coins|, i requires 0 <= i < |coins| => Post(user, CoinBody(coins[i])))
  }

  /** A request that can never write: a read, a post without a truthy coin,
      or a put whose `coins` is not an array. */
  predicate Rejected(req: Request) {
    match req
    case Get(_) => true
    case Post(_, body) => !FieldTruthy(Field(body, "coin"))
    case Put(_, body) => !IsArray(Field(body, "coins"))
  }

  /** Reading a user who has no record answers 200 with `[]` and creates no
      record. */
  lemma GetMissingUser(store: Store, user: UserId)
    requires user !in store
    ensures Step(store, Get(user), false) == (store, Response(200, Coins([])))
    ensures user !in Step(store, Get(user), false).0
  {
  }

  /** The first post for a user creates the record `[coin]`. */
  lemma FirstPostCreatesRecord(store: Store, user: UserId, coin: Coin)
    requires user !in store && coin != ""
    ensures Step(store, Post(user, CoinBody(coin)), false).0 == store[user := [coin]]
    ensures Step(store, Post(user, CoinBody(coin)), false).1 == Response(201, Coins([coin]))
  {
  }

  /** After a successful post, reading the user gives the new coin as the
      last element, after everything held before. */
  lemma PostThenGet(store: Store, user: UserId, coin: Coin)
    requires coin != ""
    ensures
      var after := Step(store, Post(user, CoinBody(coin)), false).0;
      Step(after, Get(user), false).1 == Response(200, Coins(CoinsOf(store, user) + [coin]))
  {
  }

  /** After a successful put, reading the user gives exactly the list put,
      whatever it held before; `[]` leaves an existing, empty record. */
  lemma PutThenGet(store: Store, user: UserId, coins: seq<Coin>)
    ensures
      var after := Step(store, Put(user, CoinsBody(coins)), false).0;
      && Find(after, user) == Some(coins)
      && Step(after, Get(user), false).1 == Response(200, Coins(coins))
  {
  }

  /** A put overrides whatever any earlier request did to the same user: the
      result does not depend on the history before it. */
  lemma PutOverridesHistory(store: Store, earlier: Request, fault: bool, user: UserId, coins: seq<Coin>)
    ensures
      var direct := Step(store, Put(user, CoinsBody(coins)), false);
      var later := Step(Step(store, earlier, fault).0, Put(user, CoinsBody(coins)), false);
      && Find(later.0, user) == Find(direct.0, user)
      && later.1 == direct.1
  {
  }

  /** Repeating a put changes nothing further. */
  lemma PutIsIdempotent(store: Store, user: UserId, body: Value)
    ensures
      var once := Step(store, Put(user, body), false);
      Step(once.0, Put(user, body), false) == once
  {
    var once := Step(store, Put(user, body), false);
    if once.1.status == 200 {
      assert once.0[user := once.0[user]] == once.0;
    }
  }

  /** One healthy post of a non-empty coin answers 201 and appends it. */
  lemma PostAppends(store: Store, user: UserId, coin: Coin)
    requires coin != ""
    ensures
      var next := Step(store, Post(user, CoinBody(coin)), false);
      && next.1.status == 201
      && CoinsOf(next.0, user) == CoinsOf(store, user) + [coin]
  {
  }

  /** A run of successful posts appends the coins, in order, to what the user
      held; every one of them answers 201. */
  lemma {:induction false} AppendsAccumulate(store: Store, user: UserId, coins: seq<Coin>)
    requires forall i :: 0 <= i < |coins| ==> coins[i] != ""
    ensures CoinsOf(Run(store, Posts(user, coins), Healthy(|coins|)).0, user) == CoinsOf(store, user) + coins
    ensures forall i :: 0 <= i < |coins| ==> Run(store, Posts(user, coins), Healthy(|coins|)).1[i].status == 201
    decreases |coins|
  {
    if coins != [] {
      var reqs := Posts(user, coins);
      var faults := Healthy(|coins|);
      var first := Step(store, reqs[0], false);
      PostAppends(store, user, coins[0]);
      assert reqs[1..] == Posts(user, coins[1..]);
      assert faults[1..] == Healthy(|coins| - 1);
      AppendsAccumulate(first.0, user, coins[1..]);
      assert coins == [coins[0]] + coins[1..];
      assert Run(store, reqs, faults).1 == [first.1] + Run(first.0, reqs[1..], faults[1..]).1;
    }
  }

  /** Two posts in a row leave their coins as the last two elements, in the
      order they were sent. */
  lemma SequentialPostsKeepOrder(store: Store, user: UserId, t1: Coin, t2: Coin)
    requires t1 != "" && t2 != ""
    ensures
      var held := CoinsOf(Run(store, [Post(user, CoinBody(t1)), Post(user, CoinBody(t2))], [false, false]).0, user);
      && |held| == |CoinsOf(store, user)| + 2
      && held[..|CoinsOf(store, user)|] == CoinsOf(store, user)
      && held[|held| - 2] == t1
      && held[|held| - 1] == t2
  {
    assert Posts(user, [t1, t2]) == [Post(user, CoinBody(t1)), Post(user, CoinBody(t2))];
    assert Healthy(2) == [false, false];
    AppendsAccumulate(store, user, [t1, t2]);
  }

  /** A run of requests that are all rejected or reads leaves the store as it
      was, whether or not the store fails along the way. */
  lemma {:induction false} RejectedRunKeepsStore(store: Store, reqs: seq<Request>, faults: seq<bool>)
    requires |faults| == |reqs|
    requires forall i :: 0 <= i < |reqs| ==> Rejected(reqs[i])
    ensures Run(store, reqs, faults).0 == store
    decreases |reqs|
  {
    if reqs != [] {
      assert Step(store, reqs[0], faults[0]).0 == store;
      RejectedRunKeepsStore(store, reqs[1..], faults[1..]);
    }
  }

  /** Requests for other users never change whether `user` has a record, nor
      its list, whatever store failures happen along the way. */
  lemma {:induction false} OtherUsersUntouched(store: Store, reqs: seq<Request>, faults: seq<bool>, user: UserId)
    requires |faults| == |reqs|
    requires forall i :: 0 <= i < |reqs| ==> reqs[i].user != user
    ensures Find(Run(store, reqs, faults).0, user) == Find(store, user)
    decreases |reqs|
  {
    if reqs != [] {
      var next := Step(store, reqs[0], faults[0]).0;
      assert Find(next, user) == Find(store, user);
      OtherUsersUntouched(next, reqs[1..], faults[1..], user);
    }
  }
}
