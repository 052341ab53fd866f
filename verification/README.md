# Coin collections: a verified model of the `/:user_id/coins` handlers

The service keeps, for every user id, an ordered list of string tokens
("coins") in one MongoDB document of the `quiz-coins` collection, and serves
three routes on `/:user_id/coins`:

- **GET** reads the user's list; a user without a record reads as `[]`.
- **POST** `{ coin }` refuses a falsy coin with 400 `Coin data is required`,
  otherwise creates the record `[coin]` or appends `coin` to the end of the
  list, and answers 201 with the stored list.
- **PUT** `{ coins }` refuses anything that is not an array with 400
  `Coins data must be an array`, otherwise creates or overwrites the record
  with exactly that list, and answers 200 with it.
- Any thrown failure becomes 500 `Internal server error`.

The model makes each handler a pure transition `(store, request) -> (store',
response)`. The store is a `map<string, seq<string>>`, `findOne` followed by
`save` is one atomic map update, and request bodies are a small JSON value
type. A store failure is a boolean parameter of each step (`storeFault`); the
handler only consults it after validation has passed, because that is the only
point where the source reaches the store.

Files:

- `maybe.dfy`: `Option`, standing for `undefined` and for a missing record.
- `json.dfy`: parsed JSON bodies, JavaScript truthiness, field
  destructuring, `Array.isArray`, and reading an array as a list of coins.
- `store.dfy`: the store, `findOne` (`Find`), the reader's view with a
  missing record read as empty (`CoinsOf`), and `save` as an upsert (`Save`).
- `handlers.dfy`: the GET, POST and PUT handlers and the dispatcher `Step`.
- `sessions.dfy`: runs of requests (`Run`, with a store failure flag per
  request) and the properties a client sees across several requests.
- `scenarios.dfy`: the falsy values a post refuses and three concrete
  client sessions.

## Model

| member | source | states |
|---|---|---|
| Handlers.HandleGet | server.js:37-50 | GET never changes the store; with a record it answers 200 with exactly the stored list, without one 200 with `[]`; a store failure gives 500 with the generic message |
| Handlers.HandlePost | server.js:53-75 | 400 `Coin data is required` happens exactly when the coin is missing or falsy, and then the store is unchanged whatever the store does; otherwise a store failure, or a coin that is not a string, gives 500 and no change; 201 happens exactly when the coin is truthy, the store works and the coin is a string, and then the user's list is the old list (empty if absent) plus the coin at the end, and the body is the stored list; no other user's record changes |
| Handlers.HandlePut | server.js:78-100 | 400 `Coins data must be an array` happens exactly when `coins` is not an array, with no change; a store failure, or an array holding a non-string, gives 500 and no change; 200 happens exactly when it is an array of strings and the store works, and then the record exists and holds exactly that array, which is also the body; every non-200 outcome leaves the store unchanged; no other user's record changes |
| Handlers.Step | server.js:37-100 | every request touches at most its own user's record, answers one of 200, 201, 400, 500, changes nothing when it answers 400 or 500 or is a GET, and on success answers with the list a reader now sees |
| CoinStore.Save | server.js:87-95 | saving creates the record if absent or overwrites it, so afterwards the record holds exactly the given list; the key set only gains this user; every other record is unchanged |
| Json.AsCoinList | server.js:23-28 | an array is read as a list of coins exactly when every element is a string; the list then has the same length and the same strings in the same order |
| Json.FromCoinList | server.js:81-92 | the JSON array of strings a client sends as a put's `coins` reads back, element by element, as the list it was built from |
| Sessions.GetMissingUser | server.js:40-44 | reading a user with no record answers 200 with `[]` and creates no record |
| Sessions.FirstPostCreatesRecord | server.js:62-71 | the first post for a user creates the record `[coin]` and answers 201 with `[coin]` |
| Sessions.PostThenGet | server.js:66-71 | after a successful post a read returns the earlier list followed by the new coin |
| Sessions.PutThenGet | server.js:87-96 | after a put the record exists and holds exactly the list put, including `[]`, and a read returns it |
| Sessions.PutOverridesHistory | server.js:87-96 | what a put leaves for its user and answers does not depend on any request served before it |
| Sessions.PutIsIdempotent | server.js:87-96 | repeating the same put changes neither the store nor the answer |
| Sessions.AppendsAccumulate | server.js:66-71 | a run of posts with non-empty coins appends them, in order, to what the user held, and each answers 201 |
| Sessions.SequentialPostsKeepOrder | server.js:66-71 | two successive posts grow the list by two, keep the earlier elements in place and end with the two coins in the order sent |
| Sessions.RejectedRunKeepsStore | server.js:56-60 | a run made only of reads, coin-less posts and non-array puts leaves the store exactly as it was, whatever store failures happen along the way |
| Sessions.OtherUsersUntouched | server.js:62-70 | any run of requests for other users leaves a user's record, and whether it exists, unchanged, whatever store failures happen along the way |
| Scenarios.FalsyCoinRefused | server.js:56-60 | an absent coin, `null`, `false`, `0`, `""`, or a body that is not an object, is refused with 400 and no change, even when the store is failing |
| Scenarios.NonArrayCoinsRefused | server.js:81-85 | any non-array `coins`, a string included, is refused with 400 and no change, even when the store is failing |
| Scenarios.AliceSession | server.js:53-100 | post "gold", read, put ["silver", "bronze"], read: 201 ["gold"], 200 ["gold"], 200 and 200 with ["silver", "bronze"], which is then the only record |
| Scenarios.BobSession | server.js:37-44 | a read with no prior activity answers 200 with `[]` and creates nothing |
| Scenarios.CarolSession | server.js:56-60 | a post with no `coin` field answers 400, and a later read still answers 200 with `[]` |

## Left out

- Process start-up, `dotenv`, the MongoDB connection and its logging, and `app.listen` (server.js:1-20, 102-105): start-up I/O.
- CORS and the JSON body parser (server.js:31-34): library middleware. The parsed body is modelled directly. The parser only ever delivers an object or an array, so the model reads every field of a non-object body as absent.
- Mongoose's `String` cast of coin values (server.js:23-28). Only JSON strings are coins here. A truthy non-string coin, or a non-string element of a put array, is treated as a failed write (500, no change). Mongoose would instead store a number or boolean in its string form and keep a `null` element.
- The race between `findOne` and `save` under concurrent requests (server.js:62-70, 87-95). Each handler is one atomic step, so two concurrent posts can never lose an append here, whereas they can in the running service.
- The causes of a store failure (server.js:47-49, 72-74, 97-99): a failure is one boolean per step. It produces 500 with the generic message and leaves the store unchanged. Partial writes are not modelled.
- JavaScript `NaN` and non-integer numbers: numbers are integers.
- Lost concurrent appends and non-string put elements: a post does a `findOne` then a `save`, and a put checks only `Array.isArray` (server.js:62-70, 83, 87-95). So the code neither guards against lost concurrent appends nor enforces string-only elements. The model reproduces neither gap: each step is atomic, and a non-string element is a failed write (both listed above).
