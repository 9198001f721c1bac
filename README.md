# Movie catalog service: request gate, bulk-row normalizer and paginated listing

This project models the two pieces of logic in a small Express movie catalog.

1. **The request gate** (`middlewares/auth.js`).
   - `verifyToken` takes the second space-separated segment of the `Authorization` header as the bearer token.
   - A missing or empty token is answered with 401.
   - A token the JWT verifier rejects is answered with 403.
   - Otherwise the decoded claims become `req.user` and the request goes on.
   - `authorizeRole(roles)` answers 403 unless `req.user.role` is one of `roles`.
2. **The movie routes** (`routes/movies.js`).
   - The bulk upload turns each decoded spreadsheet row into a document. A text `genres` or `watchedUsers` is split on commas. Any other value becomes `[]`. Every other column is copied unchanged.
   - The listing builds a query from the optional `genre` and `rating` parameters. It counts every match as `total`, returns one page `(page-1)*limit` into the matches as `data`, and echoes `page` (default 1) and `limit` (default 10).
   - Each route runs `verifyToken`, then `authorizeRole(['admin'])` for the two upload routes, then its handler.

Modules:

- `Wrappers` (`wrappers.dfy`): `Option`. A JavaScript value that may be `undefined` is an `Option`.
- `JsText` (`jstext.dfy`): JavaScript `split` with a one-character separator, proved inverse to `join`. Also `Number()` on decimal integer literals, proved inverse to integer formatting.
- `Auth` (`auth.dfy`): token extraction, `verifyToken` as a method returning the outcome and the new `req.user`, and `authorizeRole` as a predicate.
- `Movies` (`movies.dfy`):
  - the row normalizer;
  - the query object, built step by step by a method;
  - `find`, `countDocuments` and `skip/limit` over the collection, which is a fixed `seq<Movie>`;
  - the response envelope;
  - the middleware order of each route.

Foreign calls become inputs:

- The JWT check (`jwt.verify` with the server secret) is a parameter `verify: string -> Option<Claims>`. `None` stands for "throws".
- The spreadsheet decoder (`xlsx`) is replaced by its output, a `seq<Row>` of column-to-cell maps.
- The MongoDB collection is a `seq<Movie>`. Its order stands for the order `find` returns.

In a few places the code behaves differently from what a reader of the service might expect. The model follows the code:

- **Limit 0.** One would expect `data.length <= limit` always to hold. But the code hands `Number(limit)` to Mongo's `.limit`, where 0 means "no limit". With `limit=0` the skip `(page-1)*0` is also 0, so every match is returned whatever the page (`Movies.ZeroLimitIsUnlimited`). `|data| <= limit` is proved only for `limit > 0`.
- **Genre match.** The genre clause reads like an exact match. The code's query `{ genres: genre }` runs against an array field, so it matches documents whose `genres` *contain* the genre.
- **No validation of page and limit.** Nothing coerces them to positive integers; the code does no check at all. The model takes `page >= 1` and `limit >= 0` as preconditions (`Movies.ValidQuery`).
- **Non-idempotent normalizer.** The normalizer discards a value that is already a list, so normalizing twice is not the same as once (`Movies.NormalizeNotIdempotent`).
- **The scheme word is not checked.** `verifyToken` never looks at the word before the space. `"Basic abc"` yields token `abc` just as `"Bearer abc"` does (`Auth.TokenOfWellFormedHeader` holds for every scheme word).

## Model

| member | source | states |
|---|---|---|
| `JsText.Split` | routes/movies.js:27-28 | `split(sep)` always yields at least one piece, and no piece contains the separator |
| `JsText.SplitJoin` | routes/movies.js:27-28 | joining the pieces of a split with the separator gives back the original text, so nothing is trimmed or dropped |
| `JsText.JoinSplit` | routes/movies.js:27-28 | splitting a join of separator-free pieces gives back exactly those pieces, so split and join are inverse |
| `JsText.NumberOfIntText` | routes/movies.js:38 | `Number` of the decimal text of an integer is that integer |
| `Auth.StatusOf` | middlewares/auth.js:5-16 | a denial sends 401 exactly for a missing token and 403 exactly for a rejected token or a refused role; only an admitted request sends nothing and proceeds |
| `Auth.ExtractToken` | middlewares/auth.js:4-5 | an extracted token is non-empty and contains no space |
| `Auth.ExtractTokenBetweenSpaces` | middlewares/auth.js:4 | the token is the text between the header's first space and the next space or the end; with no space, or an empty segment there, there is no token |
| `Auth.TokenOfWellFormedHeader` | middlewares/auth.js:4 | `"<scheme> <token>"` yields the token, whatever the scheme word |
| `Auth.TokenIgnoresExtraSegments` | middlewares/auth.js:4 | segments after the token are ignored |
| `Auth.EmptyTokenAfterSpace` | middlewares/auth.js:4-5 | `"Bearer "` has no token, so it gets 401 |
| `Auth.EmptyTokenAfterDoubleSpace` | middlewares/auth.js:4-5 | `"Bearer  x"` (two spaces) has no token, so it gets 401 |
| `Auth.NoTokenWithoutSpace` | middlewares/auth.js:4-5 | a header without a space has no token, so it gets 401 |
| `Auth.AuthenticateCases` | middlewares/auth.js:3-12 | 401 exactly when there is no token; 403 exactly when there is a token and the verifier rejects it; admitted with claims `c` exactly when the verifier returns `c`; never `Forbidden` |
| `Auth.UnauthenticatedIgnoresVerifier` | middlewares/auth.js:4-5 | without a token every verifier gives the same 401, so the verifier is not consulted |
| `Auth.AuthenticateDependsOnTokenOnly` | middlewares/auth.js:6-7 | two verifiers that agree on the extracted token give the same outcome |
| `Auth.VerifyToken` | middlewares/auth.js:3-12 | the outcome is the authentication decision; `req.user` becomes the verifier's claims exactly when the request proceeds and is untouched otherwise |
| `Auth.AuthorizeRoleDependsOnRoleOnly` | middlewares/auth.js:14-18 | the role gate depends only on `roles` and the caller's role, not on the other claims |
| `Auth.AuthorizeRoleIndex` | middlewares/auth.js:16 | a caller is admitted exactly when its role equals some entry of `roles`; a missing role is never admitted |
| `Auth.AuthorizeAfterAuthenticate` | middlewares/auth.js:14-18 | after `verifyToken`, a 401/403 is passed on unchanged; `Forbidden` comes exactly when the token verified and the role is not listed; the request proceeds exactly with verified claims whose role is listed |
| `Movies.ListField` | routes/movies.js:27-28 | a text field becomes comma-free pieces that rejoin, with commas, to the text; every other value, including a missing one, becomes `[]` |
| `Movies.NormalizeRow` | routes/movies.js:25-29 | the output has the input's columns plus `genres` and `watchedUsers`; every other column is copied unchanged; both list fields hold their normalized lists |
| `Movies.NormalizeRows` | routes/movies.js:25-29 | one output row per decoded row, in order, each the normalized row and each with list-valued `genres` and `watchedUsers` |
| `Movies.TextFieldIsSplit` | routes/movies.js:27-28 | a text field `p1,...,pn` becomes exactly `[p1,...,pn]` |
| `Movies.NonTextFieldIsEmpty` | routes/movies.js:27-28 | a missing, numeric, boolean or already-array field becomes `[]` |
| `Movies.NormalizeExample` | routes/movies.js:25-29 | `{name:"X", genres:"a,b,c", watchedUsers:"u1,u2"}` gives `["a","b","c"]` and `["u1","u2"]`, with `name` kept |
| `Movies.NormalizeNotIdempotent` | routes/movies.js:27 | normalizing an already-normalized row empties its `genres`, so normalization is not idempotent |
| `Movies.QueryOfMeaning` | routes/movies.js:36-38 | the genre clause is present exactly when `genre` is supplied and non-empty, and likewise the rating clause for `rating`; a document matches exactly when every supplied clause holds |
| `Movies.BuildQuery` | routes/movies.js:36-38 | the query built step by step is the query of the parameters, and it selects exactly the documents satisfying the supplied clauses |
| `Movies.Find` | routes/movies.js:41 | `find` returns only stored documents that match, and no more than the store holds |
| `Movies.FindConcat` | routes/movies.js:41 | `find` keeps store order: it distributes over concatenation |
| `Movies.FindMultiplicity` | routes/movies.js:40-41 | every matching document is found as often as it is stored; no non-matching document is found |
| `Movies.FindWithoutClauses` | routes/movies.js:36-41 | a query with no clause returns the whole collection |
| `Movies.SkipLimit` | routes/movies.js:42-43 | the page is the contiguous run of the input starting at `skip`; its length is `limit`, cut short at the end, with limit 0 meaning no limit |
| `Movies.PagesTile` | routes/movies.js:42-43 | pages 1..n of size `limit` together are the first `n*limit` matches, so no match is skipped or repeated |
| `Movies.ListResponse` | routes/movies.js:35-45 | echoes the page (default 1) and limit (default 10); `total` is the number of matches; `data` is the matches from offset `(page-1)*limit`, exactly `limit` of them (all the remaining ones when `limit` is 0 or fewer remain, none when the offset is past the end); `|data| <= total`; `|data| <= limit` when `limit > 0`; every item satisfies the supplied clauses |
| `Movies.ListMovies` | routes/movies.js:34-46 | the handler answers exactly the envelope of the collection and the parameters |
| `Movies.ListDefaults` | routes/movies.js:35-45 | omitted page and limit echo `page = 1`, `limit = 10` and show the first ten matches |
| `Movies.TotalIgnoresPaging` | routes/movies.js:40 | `total` does not depend on page or limit |
| `Movies.ZeroLimitIsUnlimited` | routes/movies.js:42-43 | `limit=0` returns every match, whatever the page: the skip `(page-1)*0` is 0 and the store treats limit 0 as no limit |
| `Movies.DramaAtLeastSeven` | routes/movies.js:36-40 | `genre=Drama&rating=7` shows only Drama documents rated at least 7, and `total` counts all of them |
| `Movies.RouteGateAdmits` | routes/movies.js:17-34 | the upload routes admit exactly verified callers with role `admin`; the listing admits every verified caller and never answers 403 for the role; gate failures are passed on unchanged |
| `Movies.BulkUploadReply` | routes/movies.js:24-31 | the bulk upload reaches its handler exactly when the gate admits it; the rows handed to the store are then the normalized decoded rows; otherwise it answers 401 or 403 |
| `Movies.ListReply` | routes/movies.js:34-46 | the listing reaches its handler exactly when the token verifies, and then answers the envelope; otherwise it answers 401 or 403 |

## Left out

- Process start-up and wiring in `server.js` (configuration, CORS, database connection, listening, logging): these hold no logic of the core.
- The single-create handler (`POST /`, routes/movies.js:17-22): it passes the body to the store. Only its gate is modelled (`Movies.RouteGate` with `CreateOne`).
- `jwt.verify`: its cryptography, the signing secret and expiry are abstracted into the `verify` parameter.
- `parseExcel`, the `xlsx` decoder and the `multer` upload: the decoded rows are an input. A request without a file would make `req.file.buffer` throw; that case is not modelled.
- Mongoose casting of a normalized row to a stored document (`models/Movie.js` is not part of this model), `insertMany` and its partial failure, `save`, and the store's own ordering. The collection is a fixed sequence.
- Asynchronous execution and errors raised by store calls: each handler is modelled as one synchronous computation.
- `Movies.ValidQuery`: `Number()` on other texts is not modelled. That covers NaN, decimals, exponents, hex and surrounding blanks. A non-empty `rating` must be a decimal integer literal, and ratings are integers. `NumberValue` gives the literal's exact value, whereas `Number()` rounds a literal beyond 2^53 in magnitude to the nearest double (`Number("9007199254740993")` is `9007199254740992`); for such a `rating` the model's `$gte` bound differs from the code's.
- `Movies.ValidQuery`: `page >= 1` and `limit >= 0` are preconditions. The code does not check them; a negative skip would make the store raise an error.
- `Movies.ListQuery`: query parameters are single strings. A repeated parameter (`?genre=a&genre=b`, which Express parses into an array) is not modelled.
- `Auth.Claims`: claims are reduced to an optional `id` and an optional `role`. A role of a non-string type is treated like a missing one.
- Errors raised by the handlers after `verifyToken`: Express calls each handler inside its own error handling, so the `catch` of `verifyToken` sees only `jwt.verify` failing. Express's error handling itself is not modelled.
- Determinism of the listing (the same query on an unchanged collection gives the same envelope): this holds because `Movies.ListResponse` is a function. No separate lemma states it.
