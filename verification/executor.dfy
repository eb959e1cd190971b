/**
 * The executor of main.py: `run`, which rewrites a trailing bare expression
 * into an assignment to `_result` and executes the program in a fresh
 * namespace, and `execute_script`, which extracts the code from a reply, runs
 * it, and turns any raised exception into error text.
 *
 * Python itself is not modelled. A program is a sequence of abstract
 * top-level statements; parsing (with compiling), evaluating an expression and
 * executing any other kind of statement are supplied by an `Interpreter`.
 */
module Executor {
  import opened Wrappers
  import Extractor

  /** An opaque Python object. */
  datatype Value = Value(repr: string)

  /** The variable namespace `exec` runs in. */
  type Namespace = map<string, Value>

  /** An opaque expression. */
  datatype Exp = Exp(source: string)

  /**
   * A top-level statement: a bare expression statement, an assignment of one
   * value to a list of names, or any other statement.
   */
  datatype Stmt =
    | Expr(value: Exp)
    | Assign(targets: seq<string>, value: Exp)
    | Other(source: string)

  /** A raised exception: its `str` and the traceback text. */
  datatype Fault = Fault(message: string, traceback: string)

  /** The value of an expression together with the namespace after evaluating it (calls may bind names). */
  datatype Evaluated = Evaluated(value: Value, ns: Namespace)

  /**
   * What Python itself supplies: parsing and compiling source text, evaluating
   * an expression, and executing a statement that is neither an expression
   * nor a plain assignment. Each may raise.
   */
  datatype Interpreter = Interpreter(
    parse: string -> Result<seq<Stmt>, Fault>,
    eval: (Namespace, Exp) -> Result<Evaluated, Fault>,
    exec: (Namespace, Stmt) -> Result<Namespace, Fault>)

  /** The reserved capture variable. */
  const Capture: string := "_result"

  /** The text every error report starts with. */
  const ErrorPrefix: string := "An error occurred while running the provided code: "

  /** The last top-level statement is a bare expression. */
  predicate EndsInExpr(body: seq<Stmt>) {
    |body| > 0 && body[|body| - 1].Expr?
  }

  /**
   * The rewrite in `run`: when the last top-level statement is a bare
   * expression it becomes `_result = <that expression>`; nothing else changes.
   */
  function CaptureLast(body: seq<Stmt>): (r: seq<Stmt>)
    ensures |r| == |body|
    ensures forall i :: 0 <= i < |body| - 1 ==> r[i] == body[i]
    ensures EndsInExpr(body) ==> r[|body| - 1] == Assign([Capture], body[|body| - 1].value)
    ensures !EndsInExpr(body) ==> r == body
  {
    if EndsInExpr(body) then
      body[..|body| - 1] + [Assign([Capture], body[|body| - 1].value)]
    else
      body
  }

  /** Binding `v` to each target in turn. */
  function Bind(ns: Namespace, targets: seq<string>, v: Value): (r: Namespace)
    ensures r.Keys == ns.Keys + set t | t in targets
    ensures forall t :: t in targets ==> r[t] == v
    ensures forall x :: x in ns && x !in targets ==> r[x] == ns[x]
    decreases |targets|
  {
    if |targets| == 0 then ns else Bind(ns[targets[0] := v], targets[1..], v)
  }

  /** Executing one top-level statement. */
  function ExecStmt(ns: Namespace, st: Stmt, py: Interpreter): Result<Namespace, Fault> {
    match st
    case Expr(e) =>
      (match py.eval(ns, e)
       case Success(ev) => Success(ev.ns)
       case Failure(f) => Failure(f))
    case Assign(targets, e) =>
      (match py.eval(ns, e)
       case Success(ev) => Success(Bind(ev.ns, targets, ev.value))
       case Failure(f) => Failure(f))
    case Other(_) => py.exec(ns, st)
  }

  /**
   * Executing a statement list in order, stopping at the first exception.
   * Read from the other end: the last statement runs in the namespace all the
   * earlier ones left, and only when none of them raised.
   */
  function ExecBody(ns: Namespace, body: seq<Stmt>, py: Interpreter): (r: Result<Namespace, Fault>)
    ensures |body| == 0 ==> r == Success(ns)
    ensures |body| > 0 ==>
      r == match ExecBody(ns, body[..|body| - 1], py)
           case Success(ns') => ExecStmt(ns', body[|body| - 1], py)
           case Failure(f) => Failure(f)
    decreases |body|
  {
    if |body| == 0 then Success(ns)
    else
      assert |body| > 1 ==> body[..|body| - 1][1..] == body[1..][..|body| - 2];
      match ExecStmt(ns, body[0], py)
      case Success(ns') => ExecBody(ns', body[1..], py)
      case Failure(f) => Failure(f)
  }

  /** Continuing an execution with more statements. */
  function Then(r: Result<Namespace, Fault>, rest: seq<Stmt>, py: Interpreter): Result<Namespace, Fault> {
    match r
    case Success(ns) => ExecBody(ns, rest, py)
    case Failure(f) => Failure(f)
  }

  /** `ns.get("_result", None)`: the value bound to `_result`, or None when it is unbound. */
  function Lookup(ns: Namespace): (r: Option<Value>)
    ensures r.Some? <==> Capture in ns
    ensures r.Some? ==> r.value == ns[Capture]
  {
    if Capture in ns then Some(ns[Capture]) else None
  }

  /**
   * `run`: parse, rewrite the last statement, execute in a fresh namespace,
   * read `_result`. A syntax error is raised as it is. With a trailing bare
   * expression the result is that expression's value in the namespace the
   * earlier statements built, or the first exception raised on the way.
   * Otherwise the program runs unchanged and the result is whatever
   * `_result` then holds.
   */
  function Run(code: string, py: Interpreter): (r: Result<Option<Value>, Fault>)
    ensures py.parse(code).Failure? ==> r == Failure(py.parse(code).error)
    ensures py.parse(code).Success? && EndsInExpr(py.parse(code).value) ==>
      var body := py.parse(code).value;
      r == match ExecBody(map[], body[..|body| - 1], py)
           case Failure(f) => Failure(f)
           case Success(ns) =>
             match py.eval(ns, body[|body| - 1].value)
             case Failure(f) => Failure(f)
             case Success(ev) => Success(Some(ev.value))
    ensures py.parse(code).Success? && !EndsInExpr(py.parse(code).value) ==>
      r == match ExecBody(map[], py.parse(code).value, py)
           case Failure(f) => Failure(f)
           case Success(ns) => Success(Lookup(ns))
  {
    match py.parse(code)
    case Failure(f) => Failure(f)
    case Success(body) =>
      CaptureLastExec(map[], body, py);
      match ExecBody(map[], CaptureLast(body), py)
      case Failure(f) => Failure(f)
      case Success(ns) => Success(Lookup(ns))
  }

  /**
   * Executing the rewritten program: the earlier statements run as written,
   * then the trailing expression is evaluated and its value bound to `_result`.
   */
  lemma CaptureLastExec(ns: Namespace, body: seq<Stmt>, py: Interpreter)
    ensures EndsInExpr(body) ==>
      ExecBody(ns, CaptureLast(body), py) ==
        match ExecBody(ns, body[..|body| - 1], py)
        case Failure(f) => Failure(f)
        case Success(ns') =>
          match py.eval(ns', body[|body| - 1].value)
          case Failure(f) => Failure(f)
          case Success(ev) => Success(Bind(ev.ns, [Capture], ev.value))
  {
    if EndsInExpr(body) {
      var r := CaptureLast(body);
      assert r[..|r| - 1] == body[..|body| - 1];
    }
  }

  /**
   * `execute_script`: the code is always the extractor's answer; the error
   * text is empty exactly when running that code raised nothing, and
   * otherwise is the fixed prefix, the exception's text and the traceback.
   */
  function ExecuteScript(reply: string, py: Interpreter): (r: (string, string))
    ensures r.0 == Extractor.Extract(reply)
    ensures r.1 == "" <==> Run(r.0, py).Success?
    ensures Run(r.0, py).Failure? ==>
      r.1 == ErrorPrefix + Run(r.0, py).error.message + Run(r.0, py).error.traceback
    ensures r.1 != "" ==> |ErrorPrefix| <= |r.1| && r.1[..|ErrorPrefix|] == ErrorPrefix
  {
    var code := Extractor.Extract(reply);
    match Run(code, py)
    case Success(_) => (code, "")
    case Failure(f) => (code, ErrorPrefix + f.message + f.traceback)
  }

  /** Executing `a + b` is executing `a` and then `b` from wherever `a` left off. */
  lemma {:induction false} ExecAppend(ns: Namespace, a: seq<Stmt>, b: seq<Stmt>, py: Interpreter)
    ensures ExecBody(ns, a + b, py) == Then(ExecBody(ns, a, py), b, py)
    decreases |a|
  {
    if |a| == 0 {
      assert a + b == b;
    } else {
      assert (a + b)[0] == a[0];
      assert (a + b)[1..] == a[1..] + b;
      match ExecStmt(ns, a[0], py)
      case Success(ns') => ExecAppend(ns', a[1..], b, py);
      case Failure(f) =>
    }
  }

  /** The rewrite is idempotent: a rewritten program ends in an assignment, which is left alone. */
  lemma CaptureLastIdempotent(body: seq<Stmt>)
    ensures CaptureLast(CaptureLast(body)) == CaptureLast(body)
  {
  }

  /** No assignment in `body` targets the capture variable. */
  predicate NeverAssignsCapture(body: seq<Stmt>) {
    forall i :: 0 <= i < |body| && body[i].Assign? ==> Capture !in body[i].targets
  }

  /** The interpreter never introduces the capture variable on its own. */
  ghost predicate KeepsCaptureAbsent(py: Interpreter) {
    && (forall ns, e :: Capture !in ns && py.eval(ns, e).Success? ==> Capture !in py.eval(ns, e).value.ns)
    && (forall ns, st :: Capture !in ns && py.exec(ns, st).Success? ==> Capture !in py.exec(ns, st).value)
  }

  /** Execution that starts without `_result` and never binds it ends without it. */
  lemma {:induction false} ExecKeepsCaptureAbsent(ns: Namespace, body: seq<Stmt>, py: Interpreter)
    requires Capture !in ns && NeverAssignsCapture(body) && KeepsCaptureAbsent(py)
    ensures ExecBody(ns, body, py).Success? ==> Capture !in ExecBody(ns, body, py).value
    decreases |body|
  {
    if |body| > 0 {
      match ExecStmt(ns, body[0], py)
      case Success(ns') =>
        assert Capture !in ns';
        assert NeverAssignsCapture(body[1..]) by {
          forall i | 0 <= i < |body[1..]| && body[1..][i].Assign?
            ensures Capture !in body[1..][i].targets
          {
            assert body[1..][i] == body[i + 1];
          }
        }
        ExecKeepsCaptureAbsent(ns', body[1..], py);
      case Failure(f) =>
    }
  }

  /**
   * Without a trailing bare expression, and when nothing binds `_result`
   * itself, a successful `run` yields the absent marker.
   */
  lemma NothingCapturedWithoutTrailingExpr(code: string, py: Interpreter, body: seq<Stmt>)
    requires py.parse(code) == Success(body)
    requires !EndsInExpr(body)
    requires NeverAssignsCapture(body) && KeepsCaptureAbsent(py)
    ensures Run(code, py).Success? ==> Run(code, py).value == None
  {
    ExecKeepsCaptureAbsent(map[], body, py);
  }

  /** A program may bind `_result` itself: `run` then returns that value even without a trailing expression. */
  lemma ExplicitCaptureIsReturned(code: string, py: Interpreter, e: Exp, v: Value)
    requires py.parse(code) == Success([Assign([Capture], e)])
    requires py.eval(map[], e) == Success(Evaluated(v, map[]))
    ensures Run(code, py) == Success(Some(v))
  {
    var body := [Assign([Capture], e)];
    var ns := Bind(map[], [Capture], v);
    assert body[1..] == [];
    assert ExecBody(map[], body, py) == ExecBody(ns, [], py) == Success(ns);
    assert Lookup(ns) == Some(v);
  }
}
