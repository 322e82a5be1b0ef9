# Persisted-query rewrite, modelled in Dafny

This project models the part of the `cache-persisted-queries` demo server that it
writes itself. That part is the persisted-query lookup in `src/index.js`. The
table `queryMap` maps the short ids `"a"` and `"b"` to GraphQL document text. The
Express middleware `persistedQueryParser` is registered for every request to
`/graphql` (src/index.js:75-82). It rewrites only when the URL query parameters
carry a truthy `id`: it then overwrites the `query` parameter, in place, with
`queryMap[id]`. On every path it then calls `next()`.

Modules:

- `Wrappers` (`wrappers.dfy`): `Option`. `None` stands for an absent or `undefined` property.
- `QueryTable` (`query_table.dfy`): the table. The object literal is a sequence of
  `Property` values in declaration order. `ObjectFromLiteral` evaluates it the way
  JavaScript does: a later property with the same key overwrites an earlier
  one. This goes beyond the program, whose literal has no repeated key; the
  general rule is what `QueryMapContents` uses to show the table's contents.
  `QueryMap` is the value it gives, and `Lookup` is `queryMap[id]`.
- `PersistedQuery` (`persisted_query.dfy`): the middleware.
  - `Params` is the value of `req.query`; `OtherParams` holds every parameter
    except `id` and `query`.
  - `Rewrite` is the middleware's effect on that value.
  - The lemmas state the edge behaviours.
  - `Request` is the shared request object. Its method `PersistedQueryParser`
    updates the object's fields in place and returns the parameters handed to
    each call of `next()`.

An unknown id does not fail the request: `query` becomes `undefined` and
`next()` is still called. A truthy id overwrites any literal `query` the request
already carries. See `UnknownIdClearsQuery` and `IdOverridesLiteralQuery`.

## Model

| member | source | states |
|---|---|---|
| `QueryTable.LiteralKeys` | src/index.js:45-61 | the object an object literal evaluates to has a key exactly when some property of the literal defines it |
| `QueryTable.LastDefinitionWins` | src/index.js:45-61 | each key of the evaluated object holds the value of its last definition in the literal |
| `QueryTable.QueryMapContents` | src/index.js:45-61 | the table has exactly the keys "a" and "b", holding the texts of query A and query B |
| `QueryTable.Lookup` | src/index.js:66 | `queryMap[id]` is defined exactly for "a" and "b", gives query A's text for "a" and query B's for "b", and is `undefined` for every other id |
| `QueryTable.DocumentsDistinct` | src/index.js:46-60 | the two ids select different documents |
| `PersistedQuery.Rewrite` | src/index.js:64-69 | only `query` can change: `id` and every other parameter keep their values; with a falsy id the request is unchanged; with a truthy id `query` becomes the table lookup |
| `PersistedQuery.KnownIdSelectsDocument` | src/index.js:65-66 | an id that is a key of the table makes `query` that key's document text |
| `PersistedQuery.UnknownIdClearsQuery` | src/index.js:65-68 | a non-empty id missing from the table makes `query` absent, with no error, and leaves `id` and the other parameters as they were |
| `PersistedQuery.IdOverridesLiteralQuery` | src/index.js:65-66 | with a truthy id, a literal `query` in the request has no effect on the result; without one, the literal `query` is kept |
| `PersistedQuery.FalsyIdLeavesRequestUnchanged` | src/index.js:65 | an absent or empty id leaves the request completely unchanged |
| `PersistedQuery.RewriteChangesExactly` | src/index.js:65-66 | the request changes if and only if its id is truthy and the table's entry for it differs from the current `query` |
| `PersistedQuery.RewriteIdempotent` | src/index.js:65-66 | applying the rewrite twice gives the same parameters as applying it once |
| `PersistedQuery.PersistedMatchesLiteral` | src/index.js:64-66 | a request with a persisted id reaches the next stage with the same `query` and other parameters as a request that carries the document text and no id; a request carrying both the id and that text is rewritten to the same parameters and left untouched |
| `PersistedQuery.Request.PersistedQueryParser` | src/index.js:64-69 | the request's new parameters are the rewrite of its old ones, and `next()` is called exactly once on every path, after the update, so the next stage receives the rewritten parameters |

## Left out

- Express app construction, body parsing, route registration, `app.listen` and the console message (src/index.js:1-3, 72-87): HTTP plumbing and I/O.
- The `apicache` response cache and its `CACHE` environment toggle (src/index.js:5-6, 78): an external library that is only configured here. Its keying and time-to-live behaviour are not visible.
- Schema construction and GraphQL execution through `graphql-tools` and `apollo-server-express` (src/index.js:3-4, 20-41, 81): thin wrappers over libraries that are not part of this model. The `books` sample data (src/index.js:9-18) is therefore not modelled either.
- The `books` resolver (src/index.js:36): an asynchronous promise with a random `setTimeout` delay, which involves timing, randomness and floating point.
- The `res` argument of the middleware: the middleware never uses it.
- `next()` itself: it stands for the rest of the pipeline. The model records only the parameters each call hands on.
- JavaScript plain-object quirks: keys inherited from the prototype, such as `queryMap["constructor"]`, and an `id` that arrives as an array or object when parameters repeat. The table is an exact finite map, and `id` is an optional string.
