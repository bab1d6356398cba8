/** Go errors as wrap trees, with errors.Is and errors.Join. */
module AuditErrors {
  import opened AuditLog

  /** The gRPC codes of errors. */
  datatype Code =
    | Canceled | Unknown | InvalidArgument | DeadlineExceeded | NotFound | AlreadyExists | PermissionDenied
    | ResourceExhausted | FailedPrecondition | Aborted | OutOfRange | Unimplemented | Internal | Unavailable
    | DataLoss | Unauthenticated

  /** `Wrapped` is any error with an Unwrap method (fmt.Errorf with one or more %w, errors.Join);
      `RpcError` is a gRPC status error, which has none: what it was made from is only text. */
  datatype Error =
    | Sentinel(name: string)
    | Plain(text: string)
    | Panic(text: string)    // a run-time panic, where the original raises one
    | RpcError(code: Code, text: string)
    | Wrapped(text: string, causes: seq<Error>)

  const ERR_INVALID_REQUEST := Sentinel("invalid audit log request")
  const ERR_PRECONDITION_FAILED := Sentinel("precondition failed")
  const ERR_LOG_REQUEST_MISSING_PAYLOAD := Sentinel("missing payload in log request")
  const ERR_JUSTIFICATION_MISSING := Sentinel("missing justification token")
  const ERR_JUSTIFICATION_INVALID := Sentinel("invalid justification token")
  const ERR_INTERCEPTOR := Sentinel("audit interceptor")

  function Text(e: Error): string {
    match e
    case Sentinel(name) => name
    case Plain(text) => text
    case Panic(text) => text
    case RpcError(_, text) => text
    case Wrapped(text, _) => text
  }

  /** fmt.Errorf("<context>: %w", e) */
  function Wrap(context: string, e: Error): Error {
    Wrapped(context + ": " + Text(e), [e])
  }

  /** fmt.Errorf("%w: %w", a, b) */
  function WrapBoth(a: Error, b: Error): Error {
    Wrapped(Text(a) + ": " + Text(b), [a, b])
  }

  function InterceptorError(e: Error): Error {
    WrapBoth(ERR_INTERCEPTOR, e)
  }

  /** errors.Join: nil errors are dropped, and joining nothing gives nil. */
  function Join(acc: Option<Error>, e: Option<Error>): Option<Error> {
    match (acc, e)
    case (None, None) => None
    case (Some(a), None) => Some(Wrapped(Text(a), [a]))
    case (None, Some(b)) => Some(Wrapped(Text(b), [b]))
    case (Some(a), Some(b)) => Some(Wrapped(Text(a) + "\n" + Text(b), [a, b]))
  }

  /** errors.Is: a depth-first search of the wrap tree. */
  predicate Is(e: Error, target: Error)
    decreases e
  {
    || e == target
    || (e.Wrapped? && exists i :: 0 <= i < |e.causes| && Is(e.causes[i], target))
  }

  /** The node of the wrap tree at a path of child positions. */
  function NodeAt(e: Error, path: seq<nat>): Option<Error>
    decreases |path|
  {
    if path == [] then Some(e)
    else if e.Wrapped? && path[0] < |e.causes| then NodeAt(e.causes[path[0]], path[1..])
    else None
  }

  lemma {:induction false} NodeIsFound(e: Error, target: Error, path: seq<nat>)
    requires NodeAt(e, path) == Some(target)
    ensures Is(e, target)
    decreases |path|
  {
    if path != [] {
      NodeIsFound(e.causes[path[0]], target, path[1..]);
    }
  }

  lemma {:induction false} FoundIsNode(e: Error, target: Error) returns (path: seq<nat>)
    requires Is(e, target)
    ensures NodeAt(e, path) == Some(target)
    decreases e
  {
    path := [];
    if e != target {
      var i :| 0 <= i < |e.causes| && Is(e.causes[i], target);
      var rest := FoundIsNode(e.causes[i], target);
      path := [i as nat] + rest;
      assert path[1..] == rest;
    }
  }

  /** errors.Is finds the target exactly when some node of the wrap tree is the target. */
  lemma IsFindsNodes(e: Error, target: Error)
    ensures Is(e, target) <==> exists path :: NodeAt(e, path) == Some(target)
  {
    if Is(e, target) {
      var path := FoundIsNode(e, target);
    }
    forall path | NodeAt(e, path) == Some(target) ensures Is(e, target) {
      NodeIsFound(e, target, path);
    }
  }

  /** fmt.Errorf with one %w keeps every sentinel of its cause and adds none. */
  lemma WrapKeepsSentinels(context: string, e: Error, name: string)
    ensures Is(Wrap(context, e), Sentinel(name)) <==> Is(e, Sentinel(name))
  {
    var w := Wrap(context, e);
    assert w.causes[0] == e;
  }

  lemma WrapBothIs(a: Error, b: Error, name: string)
    ensures Is(WrapBoth(a, b), Sentinel(name)) <==> Is(a, Sentinel(name)) || Is(b, Sentinel(name))
  {
    var w := WrapBoth(a, b);
    assert w.causes[0] == a && w.causes[1] == b;
  }

  /** The gRPC code of the first status error in the wrap tree, searched depth first. */
  function CodeOf(e: Error): Option<Code>
    decreases e, 0
  {
    match e
    case RpcError(code, _) => Some(code)
    case Wrapped(_, causes) => CodeAmong(causes)
    case _ => None
  }

  function CodeAmong(causes: seq<Error>): Option<Code>
    decreases causes, 1
  {
    if causes == [] then None
    else if CodeOf(causes[0]).Some? then CodeOf(causes[0])
    else CodeAmong(causes[1..])
  }

  /** The wrap tree has a status error at that path. */
  predicate StatusAt(e: Error, path: seq<nat>) {
    NodeAt(e, path).Some? && NodeAt(e, path).value.RpcError?
  }

  /** The lexicographic order of paths, which is the order of a depth-first search. */
  predicate Before(p: seq<nat>, q: seq<nat>) {
    p != [] && q != [] && (p[0] < q[0] || (p[0] == q[0] && Before(p[1..], q[1..])))
  }

  lemma {:induction false} FirstCause(causes: seq<Error>) returns (i: nat)
    ensures i <= |causes| && forall k :: 0 <= k < i ==> CodeOf(causes[k]).None?
    ensures i < |causes| ==> CodeOf(causes[i]).Some? && CodeAmong(causes) == CodeOf(causes[i])
    ensures i == |causes| ==> CodeAmong(causes).None?
    decreases |causes|
  {
    i := 0;
    if causes != [] && CodeOf(causes[0]).None? {
      var rest := causes[1..];
      i := FirstCause(rest);
      i := i + 1;
      assert forall k :: 0 < k < |causes| ==> causes[k] == rest[k - 1];
    }
  }

  lemma {:induction false} NoCodeNoStatus(e: Error, path: seq<nat>)
    requires CodeOf(e).None?
    ensures !StatusAt(e, path)
    decreases |path|
  {
    if path != [] && e.Wrapped? && path[0] < |e.causes| {
      var i := FirstCause(e.causes);
      NoCodeNoStatus(e.causes[path[0]], path[1..]);
    }
  }

  /** The code of an error is that of the first status error a depth-first search of its wrap tree
      meets; it has none exactly when there is no status error in the tree. */
  lemma {:induction false} CodeIsOfFirstStatus(e: Error) returns (path: seq<nat>)
    ensures CodeOf(e).None? ==> forall q :: !StatusAt(e, q)
    ensures CodeOf(e).Some? ==>
      && StatusAt(e, path) && NodeAt(e, path).value.code == CodeOf(e).value
      && forall q :: StatusAt(e, q) && q != path ==> Before(path, q)
    decreases e
  {
    path := [];
    if CodeOf(e).None? {
      forall q ensures !StatusAt(e, q) { NoCodeNoStatus(e, q); }
    } else if e.Wrapped? {
      var i := FirstCause(e.causes);
      var rest := CodeIsOfFirstStatus(e.causes[i]);
      path := [i] + rest;
      assert path[1..] == rest;
      forall q | StatusAt(e, q) && q != path ensures Before(path, q) {
        assert q == [q[0]] + q[1..];
        if q[0] < i {
          NoCodeNoStatus(e.causes[q[0]], q[1..]);
        }
      }
    }
  }

  /** errors.Join keeps the sentinels of everything joined. */
  lemma JoinIs(a: Option<Error>, b: Option<Error>, name: string)
    ensures Join(a, b).None? <==> a.None? && b.None?
    ensures Join(a, b).Some? ==>
      (Is(Join(a, b).value, Sentinel(name)) <==>
        (a.Some? && Is(a.value, Sentinel(name))) || (b.Some? && Is(b.value, Sentinel(name))))
  {
    if a.Some? && b.Some? {
      var causes := Join(a, b).value.causes;
      assert causes[0] == a.value && causes[1] == b.value;
    } else if a.Some? || b.Some? {
      assert Join(a, b).value.causes[0] == if a.Some? then a.value else b.value;
    }
  }

  lemma WrapKeepsCode(context: string, e: Error)
    ensures CodeOf(Wrap(context, e)) == CodeOf(e)
  {
    assert CodeAmong([e]) == CodeOf(e) by {
      assert [e][1..] == [];
      assert CodeAmong([]) == None;
    }
  }
}
