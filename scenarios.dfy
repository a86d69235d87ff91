/**
 * Concrete uses of the router, worked out from its contracts and
 * definitions: a `:lang` parameter, a `*filepath` wildcard, re-registration,
 * method isolation and the 404 fallback.
 */
module Scenarios {
  import opened Strings
  import opened Patterns
  import opened Routing

  lemma WriteLangPattern()
    ensures "/" + Join(["p", ":lang", "doc"], '/') == "/p/:lang/doc"
  {
    assert Join(["p", ":lang", "doc"], '/') == "p/:lang/doc";
  }

  lemma ParseLangPattern()
    ensures ParsePattern("/p/:lang/doc") == ["p", ":lang", "doc"]
  {
    WriteLangPattern();
    ParsePatternOfJoin(["p", ":lang", "doc"]);
  }

  lemma WriteLangPath()
    ensures "/" + Join(["p", "go", "doc"], '/') == "/p/go/doc"
  {
    assert Join(["p", "go", "doc"], '/') == "p/go/doc";
  }

  lemma ParseLangPath()
    ensures ParsePattern("/p/go/doc") == ["p", "go", "doc"]
  {
    WriteLangPath();
    ParsePatternOfJoin(["p", "go", "doc"]);
  }

  lemma BindLang()
    ensures Aligned(["p", ":lang", "doc"], ["p", "go", "doc"])
    ensures Bind(["p", ":lang", "doc"], ["p", "go", "doc"]) == map["lang" := "go"]
  {
    var parts, searchParts := ["p", ":lang", "doc"], ["p", "go", "doc"];
    assert BindUpTo(parts, searchParts, 1) == map[];
    assert BindUpTo(parts, searchParts, 2) == map["lang" := "go"];
  }

  /** The route `/p/:lang/doc` matched by `/p/go/doc` binds `lang` to `go`. */
  lemma LangParameter()
    ensures Aligned(ParsePattern("/p/:lang/doc"), ParsePattern("/p/go/doc"))
    ensures Bind(ParsePattern("/p/:lang/doc"), ParsePattern("/p/go/doc")) == map["lang" := "go"]
  {
    ParseLangPattern();
    ParseLangPath();
    BindLang();
  }

  lemma WriteStaticPattern()
    ensures "/" + Join(["static", "*filepath"], '/') == "/static/*filepath"
  {
    assert Join(["static", "*filepath"], '/') == "static/*filepath";
  }

  lemma ParseStaticPattern()
    ensures ParsePattern("/static/*filepath") == ["static", "*filepath"]
  {
    WriteStaticPattern();
    ParsePatternOfJoin(["static", "*filepath"]);
  }

  lemma JoinStaticPathTail()
    ensures Join(["css", "a.css"], '/') == "css/a.css"
  {
  }

  lemma WriteStaticPath()
    ensures "/" + Join(["static", "css", "a.css"], '/') == "/static/css/a.css"
  {
    JoinStaticPathTail();
    assert ["static", "css", "a.css"][1..] == ["css", "a.css"];
  }

  lemma ParseStaticPath()
    ensures ParsePattern("/static/css/a.css") == ["static", "css", "a.css"]
  {
    WriteStaticPath();
    ParsePatternOfJoin(["static", "css", "a.css"]);
  }

  lemma BindFilepath()
    ensures Aligned(["static", "*filepath"], ["static", "css", "a.css"])
    ensures Bind(["static", "*filepath"], ["static", "css", "a.css"]) == map["filepath" := "css/a.css"]
  {
    var parts, searchParts := ["static", "*filepath"], ["static", "css", "a.css"];
    assert BindUpTo(parts, searchParts, 1) == map[];
    assert searchParts[1..] == ["css", "a.css"];
    assert Join(searchParts[1..], '/') == "css/a.css";
  }

  // The route "/static/" followed by the wildcard "*filepath", matched by the
  // path "/static/css/a.css", binds `filepath` to "css/a.css".
  lemma FilepathWildcard()
    ensures Aligned(ParsePattern("/static/*filepath"), ParsePattern("/static/css/a.css"))
    ensures Bind(ParsePattern("/static/*filepath"), ParsePattern("/static/css/a.css")) == map["filepath" := "css/a.css"]
  {
    ParseStaticPattern();
    ParseStaticPath();
    BindFilepath();
  }

  lemma KeyOfLangRoute()
    ensures Key("GET", "/p/:lang/doc") == "GET-/p/:lang/doc"
  {
  }

  /** Registering a route twice keeps one route, with the second handler. */
  method ReRegistration(h1: Handler, h2: Handler) returns (r: Router)
    ensures r.Valid()
    ensures r.roots == map["GET" := {"/p/:lang/doc"}]
    ensures r.handlers == map["GET-/p/:lang/doc" := h2]
  {
    r := new Router();
    r.AddRoute("GET", "/p/:lang/doc", h1);
    r.AddRoute("GET", "/p/:lang/doc", h2);
    KeyOfLangRoute();
  }

  /** A route registered under GET only is never found under POST. */
  method MethodIsolation(h: Handler)
  {
    var r := ReRegistration(h, h);
    var none := r.GetRoute("POST", "/p/go/doc", Some("/p/:lang/doc"));
    assert none == None;
    var listed := r.GetRoutes("POST", []);
    assert listed == None;
  }

  /** A match binds the parameters and calls the registered handler. */
  method MatchAndDispatch(h1: Handler, h2: Handler)
  {
    var r := ReRegistration(h1, h2);
    LangParameter();
    var found := r.GetRoute("GET", "/p/go/doc", Some("/p/:lang/doc"));
    assert found == Some(Match("/p/:lang/doc", map["lang" := "go"]));
    var c := new Context("GET", "/p/go/doc");
    var out := r.Handle(c, Some("/p/:lang/doc"));
    assert out == Invoked(h2) && c.params == map["lang" := "go"];
  }

  lemma NotFoundUnregistered()
    ensures NotFound("/unregistered") == Responded(404, "404 NOT FOUND: /unregistered\n")
  {
  }

  /** Without a match the answer is 404 naming the path, and no parameters
      are installed. */
  method NotFoundFallback(h: Handler)
  {
    var r := ReRegistration(h, h);
    var d := new Context("GET", "/unregistered");
    var out := r.Handle(d, None);
    NotFoundUnregistered();
    assert out == Responded(404, "404 NOT FOUND: /unregistered\n");
    assert d.params == map[];
  }
}
