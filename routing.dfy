/**
 * The router of the gee web framework: one route trie per HTTP method and a
 * handler table keyed by `method + "-" + pattern`; registration, lookup with
 * binding of `:name` and `*name` parameters, listing, and dispatch with a
 * "404 Not Found" fallback (section 15.5.5 of RFC 9110).
 *
 * The trie itself (its `insert`, `search` and `travel`) is kept abstract:
 * each method's trie is represented by the set of patterns inserted into it,
 * and the node that a search or a traversal yields is passed in by the caller,
 * constrained by the contract that `search` and `travel` keep.
 */
module Routing {
  import opened Strings
  import opened Patterns

  datatype Option<T> = None | Some(value: T)

  /** A handler function, known only by its identity. */
  datatype Handler = Handler(id: nat)

  /** What `getRoute` returns on a match: the matched node, represented by its
      route pattern, and the parameters bound from the request path. */
  datatype Match = Match(pattern: string, params: map<string, string>)

  /** The effect of `handle`: the handler called with the context, or a
      plain-text response with a status code and a body. */
  datatype Outcome = Invoked(handler: Handler) | Responded(status: int, body: string)

  /** "404 Not Found", section 15.5.5 of RFC 9110. */
  const StatusNotFound := 404

  /** The response `handle` writes when nothing matches: status 404, and a
      body made of a fixed 15-character prefix, the path itself and a final
      newline. */
  function NotFound(path: string): (r: Outcome)
    ensures r.Responded? && r.status == 404
    ensures |r.body| == 16 + |path|
    ensures r.body[..15] == "404 NOT FOUND: " && r.body[15..15 + |path|] == path
    ensures r.body[|r.body| - 1] == '\n'
  {
    Responded(StatusNotFound, "404 NOT FOUND: " + path + "\n")
  }

  /** The handler-table key of a route: the method, a `-`, then the pattern.
      For a method without `-`, the first `-` of the key is therefore the one
      right after the method. */
  function Key(httpMethod: string, pattern: string): (k: string)
    ensures |k| == |httpMethod| + 1 + |pattern|
    ensures k[..|httpMethod|] == httpMethod
    ensures k[|httpMethod|] == '-' && k[|httpMethod| + 1..] == pattern
  {
    httpMethod + "-" + pattern
  }

  /** For methods without a `-` (every standard HTTP method), distinct routes
      have distinct handler keys. */
  lemma KeyInjective(m1: string, p1: string, m2: string, p2: string)
    requires '-' !in m1 && '-' !in m2
    requires Key(m1, p1) == Key(m2, p2)
    ensures m1 == m2 && p1 == p2
  {
    var k := Key(m1, p1);
    assert forall j :: 0 <= j < |m1| ==> k[j] == m1[j];
    assert forall j :: 0 <= j < |m2| ==> k[j] == m2[j];
    assert k[|m1|] == '-' && k[|m2|] == '-';
    if |m1| != |m2| {
      assert false;
    }
    assert m1 == k[..|m1|] == m2;
    assert p1 == k[|m1| + 1..] == p2;
  }

  // ---------------------------------------------------------------------
  // Parameter binding.

  /** The parsed parts of a matched pattern line up with the request's parts:
      every part is non-empty, a `*` part stands at an index at most the number
      of request parts, and any other part at an index below it. */
  predicate Aligned(parts: seq<string>, searchParts: seq<string>)
  {
    forall i :: 0 <= i < |parts| ==>
      parts[i] != "" && (if parts[i][0] == '*' then i <= |searchParts| else i < |searchParts|)
  }

  /** A part that binds a parameter: `:name` (any length) or `*name` with a
      non-empty name. A literal and a bare `*` bind nothing. */
  predicate BindsName(part: string)
  {
    part != "" && (part[0] == ':' || (part[0] == '*' && |part| > 1))
  }

  /** The value bound at index `i`: the request part there for `:name`, the
      rest of the request joined with `/` for `*name`, which is empty when no
      request part is left. */
  function BoundValue(parts: seq<string>, searchParts: seq<string>, i: nat): (v: string)
    requires Aligned(parts, searchParts) && i < |parts|
    ensures parts[i][0] == ':' ==> i < |searchParts| && v == searchParts[i]
    ensures parts[i][0] != ':' && i < |searchParts| && (forall j :: 0 <= j < |searchParts| ==> '/' !in searchParts[j]) ==>
              Split(v, '/') == searchParts[i..]
    ensures parts[i][0] != ':' && i == |searchParts| ==> v == ""
  {
    if parts[i][0] == ':' then searchParts[i]
    else
      var rest := searchParts[i..];
      if i < |searchParts| && (forall j :: 0 <= j < |rest| ==> '/' !in rest[j]) then
        SplitJoin(rest, '/');
        Join(rest, '/')
      else Join(rest, '/')
  }

  /** The parameters bound by the first `n` parts, later bindings of a name
      overriding earlier ones. */
  function BindUpTo(parts: seq<string>, searchParts: seq<string>, n: nat): map<string, string>
    requires Aligned(parts, searchParts) && n <= |parts|
  {
    if n == 0 then map[]
    else
      var params := BindUpTo(parts, searchParts, n - 1);
      var part := parts[n - 1];
      if BindsName(part) then params[part[1..] := BoundValue(parts, searchParts, n - 1)]
      else params
  }

  /** One step of the walk: the part at index `n` adds its binding, if any. */
  lemma BindUpToStep(parts: seq<string>, searchParts: seq<string>, n: nat)
    requires Aligned(parts, searchParts) && n < |parts|
    ensures BindUpTo(parts, searchParts, n + 1) ==
              if parts[n][0] == ':' then BindUpTo(parts, searchParts, n)[parts[n][1..] := searchParts[n]]
              else if parts[n][0] == '*' && |parts[n]| > 1 then BindUpTo(parts, searchParts, n)[parts[n][1..] := Join(searchParts[n..], '/')]
              else BindUpTo(parts, searchParts, n)
  {
  }

  lemma {:induction false} BindUpToKeys(parts: seq<string>, searchParts: seq<string>, n: nat, name: string)
    requires Aligned(parts, searchParts) && n <= |parts|
    ensures name in BindUpTo(parts, searchParts, n) <==>
              exists i :: 0 <= i < n && BindsName(parts[i]) && parts[i][1..] == name
  {
    if n > 0 {
      BindUpToKeys(parts, searchParts, n - 1, name);
      if BindsName(parts[n - 1]) && parts[n - 1][1..] == name {
        assert BindsName(parts[n - 1]) && parts[n - 1][1..] == name;
      }
    }
  }

  lemma {:induction false} BindUpToValue(parts: seq<string>, searchParts: seq<string>, n: nat, i: nat)
    requires Aligned(parts, searchParts) && i < n <= |parts| && BindsName(parts[i])
    requires forall j :: i < j < n && BindsName(parts[j]) ==> parts[j][1..] != parts[i][1..]
    ensures parts[i][1..] in BindUpTo(parts, searchParts, n)
    ensures BindUpTo(parts, searchParts, n)[parts[i][1..]] == BoundValue(parts, searchParts, i)
  {
    if i < n - 1 {
      BindUpToValue(parts, searchParts, n - 1, i);
    }
  }

  /** No later part binds the same name as the part at index `i`. */
  predicate LastBinder(parts: seq<string>, i: nat)
    requires i < |parts| && BindsName(parts[i])
  {
    forall j :: i < j < |parts| && BindsName(parts[j]) ==> parts[j][1..] != parts[i][1..]
  }

  /** The two facts about `BindUpTo` over all parts, for every name at once. */
  lemma BindUpToAll(parts: seq<string>, searchParts: seq<string>)
    requires Aligned(parts, searchParts)
    ensures forall name :: name in BindUpTo(parts, searchParts, |parts|) <==>
              exists i :: 0 <= i < |parts| && BindsName(parts[i]) && parts[i][1..] == name
    ensures forall i :: 0 <= i < |parts| && BindsName(parts[i]) && LastBinder(parts, i) ==>
              && parts[i][1..] in BindUpTo(parts, searchParts, |parts|)
              && BindUpTo(parts, searchParts, |parts|)[parts[i][1..]] == BoundValue(parts, searchParts, i)
  {
    forall name {
      BindUpToKeys(parts, searchParts, |parts|, name);
    }
    forall i | 0 <= i < |parts| && BindsName(parts[i]) && LastBinder(parts, i) {
      BindUpToValue(parts, searchParts, |parts|, i);
    }
  }

  /** The parameters a matched pattern's parts bind against the request's
      parts, walked in order: a name is bound exactly when a `:name` or
      `*name` part carries it, and it holds the value of the last such part. */
  function Bind(parts: seq<string>, searchParts: seq<string>): (params: map<string, string>)
    requires Aligned(parts, searchParts)
    ensures forall name :: name in params <==>
              exists i :: 0 <= i < |parts| && BindsName(parts[i]) && parts[i][1..] == name
    ensures forall i :: 0 <= i < |parts| && BindsName(parts[i]) && LastBinder(parts, i) ==>
              parts[i][1..] in params && params[parts[i][1..]] == BoundValue(parts, searchParts, i)
  {
    BindUpToAll(parts, searchParts);
    BindUpTo(parts, searchParts, |parts|)
  }

  /** A `:name` part at index `i`, not rebound later, binds the request part
      at the same index. */
  lemma ParamBinding(parts: seq<string>, searchParts: seq<string>, i: nat)
    requires Aligned(parts, searchParts) && i < |parts|
    requires parts[i] != "" && parts[i][0] == ':'
    requires forall j :: i < j < |parts| && BindsName(parts[j]) ==> parts[j][1..] != parts[i][1..]
    ensures i < |searchParts| && parts[i][1..] in Bind(parts, searchParts)
    ensures Bind(parts, searchParts)[parts[i][1..]] == searchParts[i]
  {
    BindUpToValue(parts, searchParts, |parts|, i);
  }

  /** In a parsed pattern a `*name` part is the last part, and it binds the
      rest of the request from its index on, joined with `/`. */
  lemma WildcardBinding(pattern: string, searchParts: seq<string>, i: nat)
    requires Aligned(ParsePattern(pattern), searchParts) && i < |ParsePattern(pattern)|
    requires IsWild(ParsePattern(pattern)[i]) && |ParsePattern(pattern)[i]| > 1
    ensures i == |ParsePattern(pattern)| - 1
    ensures ParsePattern(pattern)[i][1..] in Bind(ParsePattern(pattern), searchParts)
    ensures Bind(ParsePattern(pattern), searchParts)[ParsePattern(pattern)[i][1..]] == Join(searchParts[i..], '/')
  {
    BindUpToValue(ParsePattern(pattern), searchParts, |ParsePattern(pattern)|, i);
  }

  // ---------------------------------------------------------------------
  // The contracts of the trie operations that are not part of this model.

  /** What `root.search(searchParts, 0)` may return for a trie holding
      `patterns`: a node whose pattern was inserted, is not empty (`search`
      rejects nodes without a pattern), and whose parsed parts line up with
      the search parts. */
  predicate IsSearchResult(patterns: set<string>, searchParts: seq<string>, pattern: string)
  {
    pattern in patterns && pattern != "" && Aligned(ParsePattern(pattern), searchParts)
  }

  /** What `root.travel(&nodes)` may collect for a trie holding `patterns`:
      nodes whose pattern was inserted and is not empty. */
  predicate IsTravelResult(patterns: set<string>, listed: seq<string>)
  {
    forall i :: 0 <= i < |listed| ==> listed[i] in patterns && listed[i] != ""
  }

  // ---------------------------------------------------------------------
  // The request context.

  /** The per-request context: the request's path and method and the
      parameters bound by the match. */
  class Context {
    const path: string
    const httpMethod: string
    var params: map<string, string>

    /** `newContext`: no parameters bound yet. */
    constructor (httpMethod: string, path: string)
      ensures this.httpMethod == httpMethod && this.path == path && params == map[]
    {
      this.httpMethod := httpMethod;
      this.path := path;
      params := map[];
    }
  }

  // ---------------------------------------------------------------------
  // The router.

  class Router {
    /** Per HTTP method, the patterns inserted into that method's trie. */
    var roots: map<string, set<string>>
    /** Handlers by `Key(httpMethod, pattern)`. */
    var handlers: map<string, Handler>

    /** Every route in a trie has a handler. */
    ghost predicate Valid()
      reads this
    {
      forall m, p :: m in roots && p in roots[m] ==> Key(m, p) in handlers
    }

    /** `newRouter`: no tries, no handlers. */
    constructor ()
      ensures Valid()
      ensures roots == map[] && handlers == map[]
    {
      roots := map[];
      handlers := map[];
    }

    /** `addRoute`: insert the pattern into the method's trie, creating the
        trie if the method has none, and (re)place the handler. */
    method AddRoute(httpMethod: string, pattern: string, handler: Handler)
      requires Valid()
      modifies this
      ensures Valid()
      ensures httpMethod in roots && pattern in roots[httpMethod]
      ensures Key(httpMethod, pattern) in handlers && handlers[Key(httpMethod, pattern)] == handler
      // An existing trie is kept and extended, not replaced.
      ensures httpMethod in old(roots) ==> roots[httpMethod] == old(roots)[httpMethod] + {pattern}
      ensures httpMethod !in old(roots) ==> roots[httpMethod] == {pattern}
      // Nothing else changes.
      ensures forall m :: m != httpMethod ==> (m in roots <==> m in old(roots))
      ensures forall m :: m != httpMethod && m in old(roots) ==> roots[m] == old(roots)[m]
      ensures handlers.Keys == old(handlers).Keys + {Key(httpMethod, pattern)}
      ensures forall k :: k in old(handlers) && k != Key(httpMethod, pattern) ==> handlers[k] == old(handlers)[k]
      // Registering a route again changes only its handler.
      ensures httpMethod in old(roots) && pattern in old(roots)[httpMethod] ==> roots == old(roots)
    {
      var key := Key(httpMethod, pattern);
      if httpMethod !in roots {
        roots := roots[httpMethod := {}];
      }
      if pattern in roots[httpMethod] {
        assert roots[httpMethod] + {pattern} == roots[httpMethod];
        assert roots[httpMethod := roots[httpMethod]] == roots;
      }
      roots := roots[httpMethod := roots[httpMethod] + {pattern}];
      handlers := handlers[key := handler];
    }

    /** `getRoute`: look the path up in the method's trie; `found` is what the
        trie's `search` returned. On a match, the parameters are bound by
        walking the matched pattern's parts beside the path's parts. */
    method GetRoute(httpMethod: string, path: string, found: Option<string>) returns (r: Option<Match>)
      requires httpMethod in roots && found.Some? ==> IsSearchResult(roots[httpMethod], ParsePattern(path), found.value)
      ensures httpMethod !in roots || found.None? ==> r == None
      ensures httpMethod in roots && found.Some? ==>
                r == Some(Match(found.value, Bind(ParsePattern(found.value), ParsePattern(path))))
      // Only the method's own trie is consulted.
      ensures r.Some? ==> httpMethod in roots && r.value.pattern in roots[httpMethod]
    {
      var searchParts := ParsePatternLoop(path);
      var params: map<string, string> := map[];
      if httpMethod !in roots {
        return None;
      }
      var n := found;
      if n.Some? {
        var parts := ParsePatternLoop(n.value);
        var index := 0;
        while index < |parts|
          invariant 0 <= index <= |parts|
          invariant params == BindUpTo(parts, searchParts, index)
        {
          var part := parts[index];
          BindUpToStep(parts, searchParts, index);
          if part[0] == ':' {
            params := params[part[1..] := searchParts[index]];
          }
          if part[0] == '*' && |part| > 1 {
            params := params[part[1..] := Join(searchParts[index..], '/')];
            // A wildcard part is the last one, so the walk is complete.
            assert index + 1 == |parts|;
            assert params == BindUpTo(parts, searchParts, |parts|);
            break;
          }
          index := index + 1;
        }
        assert params == BindUpTo(parts, searchParts, |parts|);
        return Some(Match(n.value, params));
      }
      return None;
    }

    /** `getRoutes`: the registered routes of the method's trie, as collected
        by its traversal `travelled`; nothing for a method without a trie. */
    method GetRoutes(httpMethod: string, travelled: seq<string>) returns (r: Option<seq<string>>)
      requires httpMethod in roots ==> IsTravelResult(roots[httpMethod], travelled)
      ensures httpMethod !in roots <==> r == None
      ensures r.Some? ==> r.value == travelled
      ensures r.Some? ==> forall i :: 0 <= i < |r.value| ==> r.value[i] in roots[httpMethod] && r.value[i] != ""
    {
      if httpMethod !in roots {
        return None;
      }
      var nodes := [];
      nodes := nodes + travelled;
      return Some(nodes);
    }

    /** `handle`: on a match, install the bound parameters in the context and
        call the handler registered for the matched pattern; otherwise answer
        404 with a body naming the path. */
    method Handle(c: Context, found: Option<string>) returns (out: Outcome)
      requires Valid()
      requires c.httpMethod in roots && found.Some? ==> IsSearchResult(roots[c.httpMethod], ParsePattern(c.path), found.value)
      modifies c
      ensures c.httpMethod in roots && found.Some? ==>
                && Key(c.httpMethod, found.value) in handlers
                && c.params == Bind(ParsePattern(found.value), ParsePattern(c.path))
                && out == Invoked(handlers[Key(c.httpMethod, found.value)])
      ensures !(c.httpMethod in roots && found.Some?) ==>
                c.params == old(c.params) && out == NotFound(c.path)
    {
      var r := GetRoute(c.httpMethod, c.path, found);
      if r.Some? {
        c.params := r.value.params;
        var key := Key(c.httpMethod, r.value.pattern);
        out := Invoked(handlers[key]);
      } else {
        out := NotFound(c.path);
      }
    }
  }
}
