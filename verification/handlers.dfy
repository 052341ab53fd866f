/** The three `/:user_id/coins` route handlers as pure transitions
    `(store, request) -> (store', response)`. Each handler is one atomic step:
    the `findOne` / `save` pair is a single map update. `storeFault` says that
    the backing store throws on this request (an unreachable database, a
    failed save); it is only consulted once validation has passed, exactly as
    the store is only reached after validation. */
module Handlers {
  import opened Maybe
  import opened Json
  import opened CoinStore

  datatype Request =
    | Get(user: UserId)
    | Post(user: UserId, body: Value)
    | Put(user: UserId, body: Value)

  /** Response payloads: `{ coins: [...] }` or `{ error: "..." }`. */
  datatype Payload = Coins(coins: seq<Coin>) | Error(error: string)

  datatype Response = Response(status: int, payload: Payload)

  const CoinRequired := "Coin data is required"
  const CoinsMustBeArray := "Coins data must be an array"
  const InternalError := "Internal server error"

  /** What every `catch (err)` block sends. */
  const ServerError := Response(500, Error(InternalError))

  /** `GET /:user_id/coins`. */
  function HandleGet(store: Store, user: UserId, storeFault: bool): (res: (Store, Response))
    ensures res.0 == store
    ensures storeFault ==> res.1 == ServerError
    ensures !storeFault && user in store ==> res.1 == Response(200, Coins(store[user]))
    ensures !storeFault && user !in store ==> res.1 == Response(200, Coins([]))
  {
    if storeFault then (store, ServerError)
    else
      match Find(store, user)
      case None => (store, Response(200, Coins([])))
      case Some(coins) => (store, Response(200, Coins(coins)))
  }

  /** `POST /:user_id/coins` with body `{ coin }`. */
  function HandlePost(store: Store, user: UserId, body: Value, storeFault: bool): (res: (Store, Response))
    // validation comes first: a falsy or missing coin is refused whatever the store does
    ensures !FieldTruthy(Field(body, "coin")) ==> res == (store, Response(400, Error(CoinRequired)))
    ensures FieldTruthy(Field(body, "coin")) && storeFault ==> res == (store, ServerError)
    ensures res.1.status == 400 <==> !FieldTruthy(Field(body, "coin"))
    // a truthy coin that is not a string is a failed write (Mongoose's String cast is not modelled)
    ensures FieldTruthy(Field(body, "coin")) && AsCoin(Field(body, "coin").value).None? ==> res == (store, ServerError)
    // the only outcomes
    ensures res.1.status in {201, 400, 500}
    ensures res.1.status != 201 ==> res.0 == store
    ensures res.1.status == 201 <==>
      FieldTruthy(Field(body, "coin")) && !storeFault && AsCoin(Field(body, "coin").value).Some?
    // a successful post appends the coin to the user's list and answers with the stored list
    ensures res.1.status == 201 ==>
      && user in res.0
      && res.0[user] == CoinsOf(store, user) + [AsCoin(Field(body, "coin").value).value]
      && res.1.payload == Coins(res.0[user])
    ensures OnlyTouches(store, res.0, user)
  {
    var coin := Field(body, "coin");
    if !FieldTruthy(coin) then (store, Response(400, Error(CoinRequired)))
    else if storeFault then (store, ServerError)
    else
      match AsCoin(coin.value)
      // the model treats a non-string coin as a failed write
      case None => (store, ServerError)
      case Some(c) =>
        var coins := match Find(store, user)
          case None => [c]
          case Some(held) => held + [c];
        (Save(store, user, coins), Response(201, Coins(coins)))
  }

  /** `PUT /:user_id/coins` with body `{ coins }`. */
  function HandlePut(store: Store, user: UserId, body: Value, storeFault: bool): (res: (Store, Response))
    ensures !IsArray(Field(body, "coins")) ==> res == (store, Response(400, Error(CoinsMustBeArray)))
    ensures IsArray(Field(body, "coins")) && storeFault ==> res == (store, ServerError)
    ensures res.1.status == 400 <==> !IsArray(Field(body, "coins"))
    // an array holding a non-string is a failed write (Mongoose's String cast is not modelled)
    ensures IsArray(Field(body, "coins")) && AsCoinList(Field(body, "coins").value.items).None? ==> res == (store, ServerError)
    ensures res.1.status in {200, 400, 500}
    ensures res.1.status != 200 ==> res.0 == store
    ensures res.1.status == 200 <==>
      IsArray(Field(body, "coins")) && !storeFault && AsCoinList(Field(body, "coins").value.items).Some?
    // a successful put sets the list to exactly the given array, whatever was held before
    ensures res.1.status == 200 ==>
      && user in res.0
      && FromCoinList(res.0[user]) == Field(body, "coins").value
      && res.1.payload == Coins(res.0[user])
    ensures OnlyTouches(store, res.0, user)
  {
    var coins := Field(body, "coins");
    if !IsArray(coins) then (store, Response(400, Error(CoinsMustBeArray)))
    else if storeFault then (store, ServerError)
    else
      match AsCoinList(coins.value.items)
      // the model treats a non-string element as a failed write
      case None => (store, ServerError)
      case Some(list) => (Save(store, user, list), Response(200, Coins(list)))
  }

  /** One request against the store. */
  function Step(store: Store, req: Request, storeFault: bool): (res: (Store, Response))
    ensures OnlyTouches(store, res.0, req.user)
    ensures res.1.status in {200, 201, 400, 500}
    ensures res.1.status >= 400 ==> res.0 == store
    ensures req.Get? ==> res.0 == store
    ensures res.1.status < 400 ==> res.1.payload == Coins(CoinsOf(res.0, req.user))
  {
    match req
    case Get(user) => HandleGet(store, user, storeFault)
    case Post(user, body) => HandlePost(store, user, body, storeFault)
    case Put(user, body) => HandlePut(store, user, body, storeFault)
  }
}
