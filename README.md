# Route table of the gee web framework (day 3), in Dafny

This project models the router of `gee`, a small Go web framework. A route
pattern such as `/p/:lang/doc` or `/static/*filepath` is registered under an
HTTP method with a handler. A request (method, path) is matched against the
method's route trie. On a match, the `:name` and `*name` segments of the
matched pattern are bound to the corresponding parts of the request path, and
the registered handler is called. Otherwise the response is "404 Not Found"
(section 15.5.5 of RFC 9110) with the body `404 NOT FOUND: <path>\n`.

Files and modules:

- `strings.dfy`, module `Strings`: Go's `strings.Split` and `strings.Join`
  for the one-character separator `/`, proved to be inverse to each other.
- `patterns.dfy`, module `Patterns`: `parsePattern`. It is a function, and
  also the loop the Go code runs, proved equal to that function. It is
  characterised as "keep the non-empty tokens, then cut after the first
  wildcard". It also round-trips with `Join`.
- `routing.dfy`, module `Routing`: the `router` aggregate as a class. It has
  `roots` (per method, the patterns inserted into its trie) and `handlers`
  (keyed by `method + "-" + pattern`). It has `newRouter`, `addRoute`,
  `getRoute` with its parameter-binding loop, `getRoutes` and `handle`. The
  request context is a class with `path`, `httpMethod` and `params`.
- `scenarios.dfy`, module `Scenarios`: worked examples of the contracts
  and definitions. They cover a `:lang` parameter, a `*filepath` wildcard,
  re-registration, method isolation and the 404 fallback.

The trie type `node` is defined in a file that is not part of this model.
Its `insert`, `search` and `travel` are therefore kept abstract:

- Inserting a pattern adds it to the method's set of patterns.
- The node that `search` returns is a parameter `found` of `GetRoute` and
  `Handle`, constrained by `IsSearchResult`. The pattern was inserted under
  that method and is not empty. Its parsed parts also line up with the
  request's parts: a `:` or literal part stands at an index below the number
  of request parts, and a `*` part at an index no greater than it.
- The list that `travel` collects is a parameter of `GetRoutes`, constrained
  by `IsTravelResult`: every listed pattern was inserted and is not empty.

A node is represented by its `pattern`. Go's `(nil, nil)` result of `getRoute`
is `None`, and the `nil` result of `getRoutes` is `None`. A handler is an
opaque identity. Calling it is the outcome `Invoked(handler)`, and the 404
answer is the outcome `Responded(404, body)`.

## Model

| member | source | states |
|---|---|---|
| `Strings.Split` | gee-web/day3-router/gee/router.go:25 | splitting on `/` yields at least one piece, and no piece contains `/` |
| `Strings.JoinSplit` | gee-web/day3-router/gee/router.go:25 | joining the pieces of a split with the separator gives back the input, so the split loses nothing but separators |
| `Strings.Join` | gee-web/day3-router/gee/router.go:68 | the joined string starts with the first piece, and for pieces without `/` it contains a `/` exactly when there is more than one piece |
| `Strings.SplitJoin` | gee-web/day3-router/gee/router.go:68 | splitting a join of at least one separator-free piece gives back those pieces (no pieces join to `""`, which splits into one empty piece) |
| `Patterns.Segments` | gee-web/day3-router/gee/router.go:28-35 | the scan keeps only non-empty pieces, never more than it was given, and only its last kept piece may start with `*` |
| `Patterns.SegmentsFromInput` | gee-web/day3-router/gee/router.go:28-35 | every piece the scan keeps is one of the pieces of the split, so it inherits their properties (no `/`) |
| `Patterns.ParsePattern` | gee-web/day3-router/gee/router.go:24-37 | no returned segment is empty, so `item[0]` and `part[0]` are in bounds; no segment contains `/`; at most one segment starts with `*`, and if so it is the last one |
| `Patterns.ParsePatternLoop` | gee-web/day3-router/gee/router.go:24-37 | the append loop with its `break` at the first `*` segment returns exactly `ParsePattern(pattern)` |
| `Patterns.SegmentsIsFilterThenCut` | gee-web/day3-router/gee/router.go:28-34 | the scan equals an independent definition: drop empty tokens, then cut right after the first wildcard token |
| `Patterns.ParsePatternWithoutWildcard` | gee-web/day3-router/gee/router.go:25-36 | with no `*` token, the result is exactly the non-empty `/`-separated tokens, in their original order |
| `Patterns.ParsePatternCutsAtWildcard` | gee-web/day3-router/gee/router.go:31-33 | with the first `*` token at index `k`, the result is the first `k + 1` tokens, so it has length `k + 1` and every later token is discarded |
| `Patterns.ParsePatternOfRoot` | gee-web/day3-router/gee/router.go:24-36 | `""` and `"/"` both parse to the empty sequence |
| `Patterns.ParsePatternOfJoin` | gee-web/day3-router/gee/router.go:24-37 | for every well-formed segment list, `"/" + Join(parts, '/')` parses back to exactly that list |
| `Patterns.ParsePatternIdempotent` | gee-web/day3-router/gee/router.go:62 | re-parsing the parsed segments, written back as a path, gives the same segments |
| `Routing.Key` | gee-web/day3-router/gee/router.go:42 | the handler key (built the same way at line 91) starts with the method, has `-` right after it and the pattern after that, so its length is their lengths plus one; for a method without `-`, that `-` is the first one in the key |
| `Routing.NotFound` | gee-web/day3-router/gee/router.go:94 | the answer has status 404, and its body is `404 NOT FOUND: ` followed by the request path and a newline |
| `Routing.KeyInjective` | gee-web/day3-router/gee/router.go:42 | for methods without `-`, equal handler keys imply the same method and the same pattern |
| `Routing.BoundValue` | gee-web/day3-router/gee/router.go:64-68 | a `:` part binds the request part at its own index; a `*name` part binds the request parts from its index on, joined with `/`, which splits back into exactly those parts when at least one is left, and is `""` when the `*name` part stands right after the last request part |
| `Routing.Bind` | gee-web/day3-router/gee/router.go:63-71 | a name is bound exactly when some `:name` part, or some `*name` part with a non-empty name, carries it, so literal parts and a bare `*` bind nothing; a name holds the value of the last part that binds it, later bindings overriding earlier ones |
| `Routing.ParamBinding` | gee-web/day3-router/gee/router.go:64-66 | a `:name` part at index `i` that is not rebound later binds `name` to the request part at index `i`, and `i` is within the request parts |
| `Routing.WildcardBinding` | gee-web/day3-router/gee/router.go:67-70 | in a parsed pattern, a `*name` part is the last part and binds `name` to the request parts from its index on, joined with `/` |
| `Routing.Context.constructor` | gee-web/day3-router/gee/context.go:30-37 | a new context carries the request's method and path and has no parameters bound |
| `Routing.Router.constructor` | gee-web/day3-router/gee/router.go:16-21 | a new router has no tries and no handlers, and satisfies the invariant that every inserted route has a handler |
| `Routing.Router.AddRoute` | gee-web/day3-router/gee/router.go:39-49 | afterwards the method has a trie holding the pattern, and the key `method-pattern` maps to the handler; an existing trie is extended, not replaced; other methods' tries and other handler entries are unchanged; re-registering the same route changes only its handler; the invariant "every inserted route has a handler" is kept |
| `Routing.Router.GetRoute` | gee-web/day3-router/gee/router.go:51-75 | with no trie for the method, or no node found, the result is `None`; on a match, the result is the node's pattern with `Bind` of its parsed parts against the path's parts, computed by the indexed loop with its early `break`; only the method's own trie is consulted |
| `Routing.Router.GetRoutes` | gee-web/day3-router/gee/router.go:77-85 | `None` exactly when the method has no trie; otherwise the traversal's list, every entry of which is a non-empty pattern inserted under that method |
| `Routing.Router.Handle` | gee-web/day3-router/gee/router.go:87-96 | on a match, the context's parameters become the bound parameters, and exactly the handler under `method-pattern` is called, which the router invariant guarantees exists; otherwise the parameters are untouched and the outcome is status 404 with body `"404 NOT FOUND: " + path + "\n"` |
| `Scenarios.ReRegistration` | gee-web/day3-router/gee/router.go:42-48 | registering `GET /p/:lang/doc` twice leaves one route, whose handler is the second one |
| `Scenarios.LangParameter` | gee-web/day3-router/gee/router.go:62-66 | `/p/:lang/doc` matched by `/p/go/doc` binds `lang` to `go` and nothing else |
| `Scenarios.FilepathWildcard` | gee-web/day3-router/gee/router.go:67-70 | the wildcard route under `/static` matched by `/static/css/a.css` binds `filepath` to `css/a.css` and nothing else |

## Left out

- The trie (`node` with `insert`, `matchChild`, `matchChildren`, `search`, `travel`) is not part of this model. Each method's trie is the set of patterns inserted into it. What `search` and `travel` return is passed in, constrained by their contracts (`IsSearchResult`, `IsTravelResult`). The model therefore does not capture the order in which children are tried, that a wildcard node consumes the rest of the path during the search, or whether a search finds a route whenever one fits. The set also over-approximates the trie: a later insertion that ends on the same node overwrites that node's pattern (`/a` then `/a/`, or `/:a` then `/:b`, since a wildcard child is reused), after which only the later pattern can be found or listed, while `IsSearchResult` still admits the earlier one. This is also why `GetRoutes` cannot promise that each registered route is listed exactly once.
- Routing.Router.GetRoutes: states only that every listed pattern is a non-empty pattern inserted under the method. It does not state that every route is listed exactly once, because that depends on `travel`, which is not part of this model.
- Routing.Router.GetRoute: the matched node is represented by its pattern string. The identity of node objects is not modelled.
- Routing.KeyInjective: it holds only for methods without `-`. The Go code builds the key by plain concatenation, so method `A-B` with pattern `C` and method `A` with pattern `B-C` share the key `A-B-C`. Standard HTTP method names contain no `-`.
- Go strings are byte sequences, while a string here is a sequence of characters. So `item[0]`, `len(part) > 1` and `part[1:]` are character operations in the model. This changes nothing for the router, because the characters it inspects (`/`, `:` and `*`) are single-byte ASCII.
- A Go `nil` params map and an empty map are both the empty map here. They behave the same for lookups.
- Handler bodies are opaque. A handler is an identity, and calling it is the outcome `Invoked(handler)`.
- `context.go` beyond the `Path`, `Method` and `Params` fields is not modelled. This covers `Status`, `SetHeader`, `String`, `JSON`, `Data`, `HTML`, `PostForm`, `Query` and `Param`. They are thin wrappers over `net/http`, `fmt` and `encoding/json`. The 404 answer that `handle` writes through `c.String` is the outcome value `Responded(404, body)`; the `StatusCode` field and header writes are not modelled.
- Concurrency is not modelled: the router has no locking, and registration is assumed to precede serving.
