/**
 * The namespace middleware: a request path `/ns/<code>/...` selects the
 * namespace `<code>` and loses its `/ns/<code>` prefix; any other path selects
 * the default namespace and is left as it is. The repository lookup may fail,
 * find nothing, or find the namespace, which is then stored in the request
 * context for the handlers behind the middleware.
 */
module NamespaceMiddleware {
  import opened Wrappers

  const DefaultNamespaceCode: string := "default"
  const NamespacePrefix: string := "/ns/"

  datatype Namespace = Namespace(id: nat, code: string)

  /** What the namespace repository answers for a code: an error, nothing, or the namespace. */
  datatype NamespaceLookup = LookupError | LookupNil | LookupFound(namespace: Namespace)

  /**
   * The value stored under the namespace key of a request context: nothing, a
   * namespace pointer (possibly nil), or a value of some other type.
   */
  datatype ContextValue = NoValue | NamespacePointer(pointer: Option<Namespace>) | OtherValue

  /** The parts of a request the middleware reads and updates. */
  datatype Request = Request(path: string, noCacheHeader: string, namespace: ContextValue)

  /** The middleware either answers with an error body or passes the updated request on. */
  datatype Response = InternalError(message: string) | NotFound(message: string) | Next(request: Request)

  function LookupErrorMessage(code: string): string
  {
    "error getting namespace with code: " + code
  }

  function NotFoundMessage(code: string): string
  {
    "unable to find namespace with code: " + code
  }

  /** Boolean parsing of a header value as the Go standard library does it. */
  function ParseBool(s: string): (r: Option<bool>)
    ensures r == Some(true) <==> s in {"1", "t", "T", "TRUE", "true", "True"}
    ensures r == Some(false) <==> s in {"0", "f", "F", "FALSE", "false", "False"}
  {
    if s in {"1", "t", "T", "TRUE", "true", "True"} then Some(true)
    else if s in {"0", "f", "F", "FALSE", "false", "False"} then Some(false)
    else None
  }

  /** The `no-cache` flag: the parsed header, or false when it does not parse. */
  function NoCache(header: string): (r: bool)
    ensures r <==> header in {"1", "t", "T", "TRUE", "true", "True"}
  {
    match ParseBool(header)
    case Some(b) => b
    case None => false
  }

  /** An unparsable (or absent) `no-cache` header means "use the cache". */
  lemma NoCacheUnparsable(header: string)
    requires ParseBool(header).None?
    ensures !NoCache(header)
  {
  }

  /** The index of the first `/` in `s` at or after `from`, if any. */
  function FirstSlash(s: string, from: nat): (r: Option<nat>)
    ensures r.Some? ==> from <= r.value < |s| && s[r.value] == '/'
    ensures forall i :: from <= i < |s| && (r.None? || i < r.value) ==> s[i] != '/'
    decreases |s| - from
  {
    if from >= |s| then None
    else if s[from] == '/' then Some(from)
    else FirstSlash(s, from + 1)
  }

  /**
   * The match of `^/ns/([^/]+)/` against a path: the code between `/ns/` and
   * the next `/`, when there is a next `/` and the code is not empty. A match
   * is a non-empty code without `/`, and the path begins `/ns/<code>/`.
   */
  function MatchNamespace(path: string): (r: Option<string>)
    ensures r.Some? ==> |r.value| > 0 && '/' !in r.value && NamespacePrefix + r.value + "/" <= path
  {
    if |path| >= |NamespacePrefix| && path[..|NamespacePrefix|] == NamespacePrefix then
      match FirstSlash(path, |NamespacePrefix|)
      case Some(end) => if end > |NamespacePrefix| then Some(path[|NamespacePrefix|..end]) else None
      case None => None
    else None
  }

  /** Every path of the form `/ns/<code>/<rest>` with a non-empty code without `/` matches with that code. */
  lemma MatchNamespaceComplete(code: string, rest: string)
    requires |code| > 0 && '/' !in code
    ensures MatchNamespace(NamespacePrefix + code + "/" + rest) == Some(code)
  {
    var path := NamespacePrefix + code + "/" + rest;
    var n := |NamespacePrefix|;
    assert path[..n] == NamespacePrefix;
    assert path[n + |code|] == '/';
    assert forall i :: n <= i < n + |code| ==> path[i] == code[i - n];
    assert FirstSlash(path, n) == Some(n + |code|);
    assert path[n..n + |code|] == code;
  }

  /** A path `/ns/<code>` without the slash after the code does not match (so `/ns/foo` falls back). */
  lemma NoTrailingSlashNoMatch(code: string)
    requires '/' !in code
    ensures MatchNamespace(NamespacePrefix + code) == None
  {
    var path := NamespacePrefix + code;
    var n := |NamespacePrefix|;
    if |path| >= n && path[..n] == NamespacePrefix {
      assert forall i :: n <= i < |path| ==> path[i] == code[i - n];
      assert FirstSlash(path, n) == None;
    }
  }

  /** The code the middleware looks up: the matched one, or the default. */
  function ResolvedCode(path: string): (r: string)
    ensures MatchNamespace(path).None? ==> r == DefaultNamespaceCode
    ensures MatchNamespace(path).Some? ==> |r| > 0 && '/' !in r && NamespacePrefix + r + "/" <= path
  {
    match MatchNamespace(path)
    case Some(code) => code
    case None => DefaultNamespaceCode
  }

  function TrimPrefix(s: string, prefix: string): string
  {
    if |prefix| <= |s| && s[..|prefix|] == prefix then s[|prefix|..] else s
  }

  /** The path handed on after a successful lookup. */
  function RewrittenPath(path: string): (r: string)
    ensures |r| <= |path| && path[|path| - |r|..] == r
    ensures MatchNamespace(path).None? ==> r == path
  {
    match MatchNamespace(path)
    case Some(code) => TrimPrefix(path, NamespacePrefix + code)
    case None => path
  }

  /**
   * A matched path loses exactly its `/ns/<code>` prefix and still begins
   * with `/`; an unmatched path is unchanged.
   */
  lemma RewrittenPathMeaning(path: string)
    ensures MatchNamespace(path).Some? ==>
      && |RewrittenPath(path)| > 0 && RewrittenPath(path)[0] == '/'
      && NamespacePrefix + MatchNamespace(path).value + RewrittenPath(path) == path
    ensures MatchNamespace(path).None? ==> RewrittenPath(path) == path
  {
    if MatchNamespace(path).Some? {
      var code := MatchNamespace(path).value;
      var p := NamespacePrefix + code;
      assert path[..|p|] == (path[..|p + "/"|])[..|p|];
      assert path[|p|] == (path[..|p + "/"|])[|p|];
      assert path == path[..|p|] + path[|p|..];
    }
  }

  /** Reads the namespace stored in a context: an error unless the value is a namespace pointer. */
  function GetNamespaceFromContext(v: ContextValue): (r: Result<Option<Namespace>, string>)
    ensures r.Failure? <==> (v.NoValue? || v.OtherValue?)
    ensures r.Failure? ==> r.error == "error getting namespace from context"
    ensures r.Success? ==> r.value == v.pointer
  {
    match v
    case NamespacePointer(p) => Success(p)
    case _ => Failure("error getting namespace from context")
  }

  /**
   * The middleware: resolves the namespace code from the path (or the
   * default), looks it up, and either answers with an internal error or a
   * not-found error naming the code, or stores the namespace in the context,
   * rewrites the path and passes the request on.
   */
  method Handle(req: Request, getByCode: (bool, string) -> NamespaceLookup) returns (resp: Response)
    ensures var code := ResolvedCode(req.path);
      var lookup := getByCode(NoCache(req.noCacheHeader), code);
      && (resp.InternalError? <==> lookup.LookupError?)
      && (resp.NotFound? <==> lookup.LookupNil?)
      && (resp.InternalError? ==> resp.message == LookupErrorMessage(code))
      && (resp.NotFound? ==> resp.message == NotFoundMessage(code))
      && (resp.Next? ==>
            && resp.request.path == RewrittenPath(req.path)
            && resp.request.noCacheHeader == req.noCacheHeader
            && GetNamespaceFromContext(resp.request.namespace) == Success(Some(lookup.namespace)))
  {
    var noCache := NoCache(req.noCacheHeader);
    var matches := MatchNamespace(req.path);
    if matches.Some? {
      var code := matches.value;
      var namespace := getByCode(noCache, code);
      if namespace.LookupError? {
        return InternalError(LookupErrorMessage(code));
      }
      if namespace.LookupNil? {
        return NotFound(NotFoundMessage(code));
      }
      var updated := req.(namespace := NamespacePointer(Some(namespace.namespace)));
      updated := updated.(path := TrimPrefix(updated.path, NamespacePrefix + code));
      return Next(updated);
    } else {
      var namespace := getByCode(noCache, DefaultNamespaceCode);
      if namespace.LookupError? {
        return InternalError(LookupErrorMessage(DefaultNamespaceCode));
      }
      if namespace.LookupNil? {
        return NotFound(NotFoundMessage(DefaultNamespaceCode));
      }
      return Next(req.(namespace := NamespacePointer(Some(namespace.namespace))));
    }
  }

  /**
   * The default code given explicitly and the default code by fallback are
   * looked up alike, and a missing default namespace is reported by name.
   */
  lemma DefaultCodeScenarios()
    ensures ResolvedCode("/ns/default/experiments") == DefaultNamespaceCode
    ensures ResolvedCode("/experiments") == DefaultNamespaceCode
    ensures NotFoundMessage(DefaultNamespaceCode) == "unable to find namespace with code: default"
  {
    MatchNamespaceComplete("default", "experiments");
    assert "/ns/default/experiments" == NamespacePrefix + "default" + "/" + "experiments";
  }
}
