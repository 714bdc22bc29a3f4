/** Storage formulas (loop/constraints.py) and their renaming into macro names (loop/dse.py). A formula is a Python
    expression tree; what the checks let through to an operator or a function is computed by `Prims`, so nothing
    here depends on how Python rounds. */
module Formula {

  datatype Value = Int(n: int) | Float(r: real)

  datatype BinOp = Plus | Minus | Times | Div | FloorDiv | Mod | Pow | LShift | RShift | OtherBin(name: string)

  datatype UnOp = Neg | Pos | OtherUn(name: string)

  /** `Other` is any node evaluation refuses: a comparison, a subscript, a Boolean, a keyword argument's value. */
  datatype Expr =
    | Const(value: Value)
    | Name(id: string)
    | Unary(op: UnOp, e: Expr)
    | Binary(bop: BinOp, left: Expr, right: Expr)
    | Call(func: Expr, args: seq<Expr>, keywords: seq<Expr>)
    | Other(children: seq<Expr>)

  datatype Fault =
    | UnknownName
    | NotANumber
    | ShiftNeedsInteger
    | ShiftRange
    | ExponentRange
    | Arithmetic
    | OperatorNotAllowed
    | NotPlainArithmetic

  datatype Result<T> = Ok(value: T) | Err(fault: Fault)

  /** What an environment binds a name to: a number, or anything else. */
  datatype Binding = Number(v: Value) | NotNumber

  type Env = map<string, Binding>

  /** Python's own arithmetic, past every check the formula code makes. */
  datatype Prims = Prims(
    binary: (BinOp, Value, Value) -> Result<Value>,
    unary: (UnOp, Value) -> Result<Value>,
    call: (string, seq<Value>) -> Result<Value>)

  const FUNCTIONS: set<string> := {"min", "max", "abs", "int", "log2", "ceil", "floor"}

  /* ------------------------------------------------------------ evaluation */

  function Lookup(env: Env, x: string): Result<Value> {
    if x !in env then Err(UnknownName)
    else match env[x] case Number(v) => Ok(v) case NotNumber => Err(NotANumber)
  }

  predicate IsInteger(r: real) {
    r == r.Floor as real
  }

  /** `_as_int`. */
  function AsInt(v: Value): Result<int> {
    match v
    case Int(n) => Ok(n)
    case Float(r) => if IsInteger(r) then Ok(r.Floor) else Err(ShiftNeedsInteger)
  }

  predicate TooLarge(v: Value) {
    match v
    case Int(n) => n > 64 || n < -64
    case Float(r) => r > 64.0 || r < -64.0
  }

  function Apply(prims: Prims, op: BinOp, l: Value, r: Value): Result<Value> {
    if op == LShift || op == RShift then
      match AsInt(l)
      case Err(f) => Err(f)
      case Ok(a) =>
        match AsInt(r)
        case Err(f) => Err(f)
        case Ok(b) => if 0 <= b <= 64 then prims.binary(op, Int(a), Int(b)) else Err(ShiftRange)
    else if op == Pow && TooLarge(r) then Err(ExponentRange)
    else prims.binary(op, l, r)
  }

  /** `evaluate`: arithmetic over `env`, and nothing else. */
  function Evaluate(prims: Prims, e: Expr, env: Env): Result<Value>
    decreases e, 0
  {
    match e
    case Const(v) => Ok(v)
    case Name(x) => Lookup(env, x)
    case Unary(op, a) =>
      if op.OtherUn? then Err(NotPlainArithmetic)
      else (match Evaluate(prims, a, env) case Err(f) => Err(f) case Ok(v) => prims.unary(op, v))
    case Binary(op, a, b) =>
      if op.OtherBin? then Err(OperatorNotAllowed)
      else (match Evaluate(prims, a, env)
            case Err(f) => Err(f)
            case Ok(l) =>
              match Evaluate(prims, b, env)
              case Err(f) => Err(f)
              case Ok(r) => Apply(prims, op, l, r))
    case Call(func, args, keywords) =>
      if func.Name? && func.id in FUNCTIONS && keywords == [] then
        match EvaluateAll(prims, args, env)
        case Err(f) => Err(f)
        case Ok(vs) => prims.call(func.id, vs)
      else Err(NotPlainArithmetic)
    case Other(_) => Err(NotPlainArithmetic)
  }

  function EvaluateAll(prims: Prims, es: seq<Expr>, env: Env): Result<seq<Value>>
    decreases es, 1
  {
    if es == [] then Ok([])
    else match Evaluate(prims, es[0], env)
      case Err(f) => Err(f)
      case Ok(v) =>
        match EvaluateAll(prims, es[1..], env)
        case Err(f) => Err(f)
        case Ok(vs) => Ok([v] + vs)
  }

  /* ------------------------------------------------------------ what a formula's value is */

  /** The value is this whole number. */
  predicate Whole(v: Value, n: int) {
    v == Int(n) || v == Float(n as real)
  }

  /** What an operator makes of its left and its right operand, in this order: a shift takes whole numbers and moves by no
      more than 64 places, an exponent is no larger than 64 either way. */
  ghost predicate Makes(prims: Prims, op: BinOp, left: Value, right: Value, v: Value) {
    match op
    case LShift => exists m, n :: Whole(left, m) && Whole(right, n) && 0 <= n <= 64 && prims.binary(LShift, Int(m), Int(n)) == Ok(v)
    case RShift => exists m, n :: Whole(left, m) && Whole(right, n) && 0 <= n <= 64 && prims.binary(RShift, Int(m), Int(n)) == Ok(v)
    case Pow => -64.0 <= AsReal(right) <= 64.0 && prims.binary(Pow, left, right) == Ok(v)
    case OtherBin(_) => false
    case _ => prims.binary(op, left, right) == Ok(v)
  }

  function AsReal(v: Value): real {
    match v case Int(n) => n as real case Float(r) => r
  }

  /** The formula has this value: its parts have theirs, and its operator or function makes it of them. */
  ghost predicate Yields(prims: Prims, e: Expr, env: Env, v: Value)
    decreases e, 0
  {
    match e
    case Const(c) => v == c
    case Name(x) => x in env && env[x] == Number(v)
    case Unary(op, a) => (op == Neg || op == Pos) && exists w :: Yields(prims, a, env, w) && prims.unary(op, w) == Ok(v)
    case Binary(op, a, b) =>
      exists left, right :: Yields(prims, a, env, left) && Yields(prims, b, env, right) && Makes(prims, op, left, right, v)
    case Call(func, args, keywords) =>
      keywords == [] && func.Name? && func.id in {"abs", "ceil", "floor", "int", "log2", "max", "min"} &&
      exists vs :: YieldAll(prims, args, env, vs) && prims.call(func.id, vs) == Ok(v)
    case Other(_) => false
  }

  ghost predicate YieldAll(prims: Prims, es: seq<Expr>, env: Env, vs: seq<Value>)
    decreases es, 1
  {
    |vs| == |es| && forall i :: 0 <= i < |es| ==> Yields(prims, es[i], env, vs[i])
  }

  /** `evaluate` gives a formula its value, and nothing to one that has none. */
  lemma {:induction false} EvaluatesIffYields(prims: Prims, e: Expr, env: Env, v: Value)
    ensures Evaluate(prims, e, env) == Ok(v) <==> Yields(prims, e, env, v)
    decreases e, 0
  {
    hide Apply, Makes;
    match e
    case Const(_) =>
    case Name(_) =>
    case Unary(op, a) =>
      forall w ensures Evaluate(prims, a, env) == Ok(w) <==> Yields(prims, a, env, w) { EvaluatesIffYields(prims, a, env, w); }
    case Binary(op, a, b) =>
      forall w ensures Evaluate(prims, a, env) == Ok(w) <==> Yields(prims, a, env, w) { EvaluatesIffYields(prims, a, env, w); }
      forall w ensures Evaluate(prims, b, env) == Ok(w) <==> Yields(prims, b, env, w) { EvaluatesIffYields(prims, b, env, w); }
      forall l, r ensures !op.OtherBin? && Apply(prims, op, l, r) == Ok(v) <==> Makes(prims, op, l, r, v) { AppliesIffMakes(prims, op, l, r, v); }
    case Call(func, args, keywords) =>
      forall vs ensures EvaluateAll(prims, args, env) == Ok(vs) <==> YieldAll(prims, args, env, vs) {
        EvaluateAllIff(prims, args, env, vs);
      }
    case Other(_) =>
  }

  lemma {:induction false} EvaluateAllIff(prims: Prims, es: seq<Expr>, env: Env, vs: seq<Value>)
    ensures EvaluateAll(prims, es, env) == Ok(vs) <==> YieldAll(prims, es, env, vs)
    decreases es, 1
  {
    hide Evaluate, Yields;
    if es != [] {
      forall w ensures Evaluate(prims, es[0], env) == Ok(w) <==> Yields(prims, es[0], env, w) { EvaluatesIffYields(prims, es[0], env, w); }
      forall ws ensures EvaluateAll(prims, es[1..], env) == Ok(ws) <==> YieldAll(prims, es[1..], env, ws) {
        EvaluateAllIff(prims, es[1..], env, ws);
      }
      if vs != [] {
        assert vs == [vs[0]] + vs[1..];
        YieldsFirst(prims, es, env, vs);
      }
    }
  }

  lemma YieldsFirst(prims: Prims, es: seq<Expr>, env: Env, vs: seq<Value>)
    requires es != [] && vs != []
    ensures YieldAll(prims, es, env, vs) <==> Yields(prims, es[0], env, vs[0]) && YieldAll(prims, es[1..], env, vs[1..])
  {
    hide Yields;
    if Yields(prims, es[0], env, vs[0]) && YieldAll(prims, es[1..], env, vs[1..]) {
      forall i | 0 <= i < |es|
        ensures Yields(prims, es[i], env, vs[i])
      {
        assert i > 0 ==> es[1..][i - 1] == es[i] && vs[1..][i - 1] == vs[i];
      }
    }
  }

  lemma AppliesIffMakes(prims: Prims, op: BinOp, left: Value, right: Value, v: Value)
    ensures !op.OtherBin? && Apply(prims, op, left, right) == Ok(v) <==> Makes(prims, op, left, right, v)
  {
    WholeIff(left);
    WholeIff(right);
  }

  lemma WholeIff(v: Value)
    ensures forall n :: AsInt(v) == Ok(n) <==> Whole(v, n)
  {
    forall n
      ensures AsInt(v) == Ok(n) <==> Whole(v, n)
    {
      match v
      case Int(_) =>
      case Float(r) => assert r == n as real ==> r.Floor == n;
    }
  }

  /** Python's arithmetic on whole numbers, where the formulas of a storage budget use it. */
  ghost predicate Exact(prims: Prims) {
    && (forall a, b :: prims.binary(Plus, Int(a), Int(b)) == Ok(Int(a + b)))
    && (forall a, b :: prims.binary(Minus, Int(a), Int(b)) == Ok(Int(a - b)))
    && (forall a, b :: prims.binary(Times, Int(a), Int(b)) == Ok(Int(a * b)))
    && (forall a, n: nat :: prims.binary(Pow, Int(a), Int(n)) == Ok(Int(Power(a, n))))
  }

  function Power(a: int, n: nat): int {
    if n == 0 then 1 else a * Power(a, n - 1)
  }

  /** On whole numbers a table of `2**n` entries of `w` bits less a quarter of one, with its two knobs read, costs just
      that: the operands go in the order they are written. */
  lemma TableCosts(prims: Prims, env: Env, n: nat, w: nat)
    requires Exact(prims) && 2 <= n <= 64 && "n" in env && env["n"] == Number(Int(n)) && "w" in env && env["w"] == Number(Int(w))
    ensures var table := Binary(Times, Binary(Pow, Const(Int(2)), Name("n")), Name("w"));
            var quarter := Binary(Pow, Const(Int(2)), Binary(Minus, Name("n"), Const(Int(2))));
            Evaluate(prims, Binary(Minus, table, quarter), env) == Ok(Int(Power(2, n) * w - Power(2, n - 2)))
  {
    hide Exact, Power, Evaluate;
    var two, size, less := Const(Int(2)), Name("n"), Binary(Minus, Name("n"), Const(Int(2)));
    LeavesAre(prims, env, n, w);
    OneOperation(prims, Minus, size, two, env, n, 2);
    OneOperation(prims, Pow, two, size, env, 2, n);
    OneOperation(prims, Pow, two, less, env, 2, n - 2);
    OneOperation(prims, Times, Binary(Pow, two, size), Name("w"), env, Power(2, n), w);
    OneOperation(prims, Minus, Binary(Times, Binary(Pow, two, size), Name("w")), Binary(Pow, two, less), env, Power(2, n) * w, Power(2, n - 2));
  }

  lemma LeavesAre(prims: Prims, env: Env, n: nat, w: nat)
    requires "n" in env && env["n"] == Number(Int(n)) && "w" in env && env["w"] == Number(Int(w))
    ensures Evaluate(prims, Name("n"), env) == Ok(Int(n)) && Evaluate(prims, Name("w"), env) == Ok(Int(w))
    ensures Evaluate(prims, Const(Int(2)), env) == Ok(Int(2))
  {
  }

  lemma OneOperation(prims: Prims, op: BinOp, a: Expr, b: Expr, env: Env, x: int, y: int)
    requires Exact(prims) && Evaluate(prims, a, env) == Ok(Int(x)) && Evaluate(prims, b, env) == Ok(Int(y))
    requires op == Minus || op == Times || (op == Pow && 0 <= y <= 64)
    ensures Evaluate(prims, Binary(op, a, b), env)
         == Ok(Int(if op == Minus then x - y else if op == Times then x * y else Power(x, y)))
  {
    hide Power;
  }

  /* ------------------------------------------------------------ names */

  /** Every name node of the tree, as `ast.walk` finds them. */
  function Names(e: Expr): set<string>
    decreases e, 0
  {
    match e
    case Const(_) => {}
    case Name(x) => {x}
    case Unary(_, a) => Names(a)
    case Binary(_, a, b) => Names(a) + Names(b)
    case Call(func, args, keywords) => Names(func) + NamesAll(args) + NamesAll(keywords)
    case Other(children) => NamesAll(children)
  }

  function NamesAll(es: seq<Expr>): set<string>
    decreases es, 1
  {
    if es == [] then {} else Names(es[0]) + NamesAll(es[1..])
  }

  /** The names that are called somewhere in the tree. */
  function Called(e: Expr): set<string>
    decreases e, 0
  {
    match e
    case Const(_) => {}
    case Name(_) => {}
    case Unary(_, a) => Called(a)
    case Binary(_, a, b) => Called(a) + Called(b)
    case Call(func, args, keywords) =>
      (if func.Name? then {func.id} else Called(func)) + CalledAll(args) + CalledAll(keywords)
    case Other(children) => CalledAll(children)
  }

  function CalledAll(es: seq<Expr>): set<string>
    decreases es, 1
  {
    if es == [] then {} else Called(es[0]) + CalledAll(es[1..])
  }

  /** `names_in`: every name, not counting the functions called. */
  function NamesIn(e: Expr): set<string> {
    Names(e) - Called(e)
  }

  /** The names read as variables, wherever they stand. */
  function Variables(e: Expr): set<string>
    decreases e, 0
  {
    match e
    case Const(_) => {}
    case Name(x) => {x}
    case Unary(_, a) => Variables(a)
    case Binary(_, a, b) => Variables(a) + Variables(b)
    case Call(func, args, keywords) =>
      (if func.Name? then {} else Variables(func)) + VariablesAll(args) + VariablesAll(keywords)
    case Other(children) => VariablesAll(children)
  }

  function VariablesAll(es: seq<Expr>): set<string>
    decreases es, 1
  {
    if es == [] then {} else Variables(es[0]) + VariablesAll(es[1..])
  }

  lemma {:induction false} NamesSplit(e: Expr)
    ensures Names(e) == Variables(e) + Called(e)
    decreases e, 0
  {
    match e
    case Const(_) =>
    case Name(_) =>
    case Unary(_, a) => NamesSplit(a);
    case Binary(_, a, b) => NamesSplit(a); NamesSplit(b);
    case Call(func, args, keywords) => NamesSplit(func); NamesSplitAll(args); NamesSplitAll(keywords);
    case Other(children) => NamesSplitAll(children);
  }

  lemma {:induction false} NamesSplitAll(es: seq<Expr>)
    ensures NamesAll(es) == VariablesAll(es) + CalledAll(es)
    decreases es, 1
  {
    if es != [] {
      NamesSplit(es[0]);
      NamesSplitAll(es[1..]);
    }
  }

  /** `names_in` is the set of variables a formula reads exactly when no name is both read and called. */
  lemma NamesInIsVariables(e: Expr)
    ensures NamesIn(e) == Variables(e) <==> Variables(e) !! Called(e)
  {
    NamesSplit(e);
  }

  /** One renaming of two environments' names: each variable is bound alike on both sides. */
  ghost predicate BoundAlike(names: set<string>, rename: map<string, string>, env: Env, renamed: Env) {
    forall x :: x in names ==> Lookup(renamed, NewName(rename, x)) == Lookup(env, x)
  }

  /* ------------------------------------------------------------ renaming */

  function NewName(rename: map<string, string>, x: string): string {
    if x in rename then rename[x] else x
  }

  /** `_renamed`: every name node, function names included. */
  function Renamed(e: Expr, rename: map<string, string>): Expr
    decreases e, 0
  {
    match e
    case Const(_) => e
    case Name(x) => Name(NewName(rename, x))
    case Unary(op, a) => Unary(op, Renamed(a, rename))
    case Binary(op, a, b) => Binary(op, Renamed(a, rename), Renamed(b, rename))
    case Call(func, args, keywords) =>
      Call(Renamed(func, rename), RenamedAll(args, rename), RenamedAll(keywords, rename))
    case Other(children) => Other(RenamedAll(children, rename))
  }

  function RenamedAll(es: seq<Expr>, rename: map<string, string>): (out: seq<Expr>)
    ensures |out| == |es|
    decreases es, 1
  {
    if es == [] then [] else [Renamed(es[0], rename)] + RenamedAll(es[1..], rename)
  }

  /** Renaming preserves meaning, faults included, for a formula that calls no renamed name. */
  lemma {:induction false} RenamingPreserves(prims: Prims, e: Expr, rename: map<string, string>, env: Env, renamed: Env)
    requires BoundAlike(Variables(e), rename, env, renamed)
    requires Called(e) !! rename.Keys
    ensures Evaluate(prims, Renamed(e, rename), renamed) == Evaluate(prims, e, env)
    decreases e, 0
  {
    match e
    case Const(_) =>
    case Name(_) =>
    case Unary(_, a) => RenamingPreserves(prims, a, rename, env, renamed);
    case Binary(_, a, b) =>
      RenamingPreserves(prims, a, rename, env, renamed);
      RenamingPreserves(prims, b, rename, env, renamed);
    case Call(func, args, keywords) => RenamingPreservesAll(prims, args, rename, env, renamed);
    case Other(_) =>
  }

  lemma {:induction false} RenamingPreservesAll(prims: Prims, es: seq<Expr>, rename: map<string, string>, env: Env, renamed: Env)
    requires BoundAlike(VariablesAll(es), rename, env, renamed)
    requires CalledAll(es) !! rename.Keys
    ensures EvaluateAll(prims, RenamedAll(es, rename), renamed) == EvaluateAll(prims, es, env)
    decreases es, 1
  {
    if es != [] {
      RenamingPreserves(prims, es[0], rename, env, renamed);
      RenamingPreservesAll(prims, es[1..], rename, env, renamed);
    }
  }

  /** Exactly then: of a formula that evaluates, the renamed formula has the same value if no called name is renamed,
      and is refused if one is, however deep the call stands. */
  lemma {:induction false} RenamingPreservesIff(prims: Prims, e: Expr, rename: map<string, string>, env: Env, renamed: Env)
    requires Evaluate(prims, e, env).Ok?
    requires BoundAlike(Variables(e), rename, env, renamed)
    requires forall x :: x in rename ==> rename[x] !in FUNCTIONS
    ensures Evaluate(prims, Renamed(e, rename), renamed) ==
            if Called(e) !! rename.Keys then Evaluate(prims, e, env) else Err(NotPlainArithmetic)
    ensures Evaluate(prims, Renamed(e, rename), renamed) == Evaluate(prims, e, env) <==> Called(e) !! rename.Keys
    decreases e, 0
  {
    match e
    case Const(_) =>
    case Name(_) =>
    case Unary(_, a) => RenamingPreservesIff(prims, a, rename, env, renamed);
    case Binary(_, a, b) =>
      RenamingPreservesIff(prims, a, rename, env, renamed);
      RenamingPreservesIff(prims, b, rename, env, renamed);
    case Call(func, args, keywords) => RenamingPreservesIffAll(prims, args, rename, env, renamed);
  }

  lemma {:induction false} RenamingPreservesIffAll(prims: Prims, es: seq<Expr>, rename: map<string, string>, env: Env, renamed: Env)
    requires EvaluateAll(prims, es, env).Ok?
    requires BoundAlike(VariablesAll(es), rename, env, renamed)
    requires forall x :: x in rename ==> rename[x] !in FUNCTIONS
    ensures EvaluateAll(prims, RenamedAll(es, rename), renamed) ==
            if CalledAll(es) !! rename.Keys then EvaluateAll(prims, es, env) else Err(NotPlainArithmetic)
    decreases es, 1
  {
    if es != [] {
      RenamingPreservesIff(prims, es[0], rename, env, renamed);
      RenamingPreservesIffAll(prims, es[1..], rename, env, renamed);
    }
  }

  /** So a knob that shares a called function's name captures the call: the renamed call is no function at all. */
  lemma CapturedCallFails(prims: Prims, f: string, args: seq<Expr>, rename: map<string, string>, renamed: Env)
    requires f in FUNCTIONS && f in rename && rename[f] !in FUNCTIONS
    ensures Evaluate(prims, Renamed(Call(Name(f), args, []), rename), renamed) == Err(NotPlainArithmetic)
  {
  }

  /** Evaluation reads nothing but the variables. */
  lemma {:induction false} ReadsOnlyVariables(prims: Prims, e: Expr, a: Env, b: Env)
    requires forall x :: x in Variables(e) ==> Lookup(a, x) == Lookup(b, x)
    ensures Evaluate(prims, e, a) == Evaluate(prims, e, b)
    decreases e, 0
  {
    match e
    case Const(_) =>
    case Name(_) =>
    case Unary(_, c) => ReadsOnlyVariables(prims, c, a, b);
    case Binary(_, c, d) => ReadsOnlyVariables(prims, c, a, b); ReadsOnlyVariables(prims, d, a, b);
    case Call(func, args, _) => ReadsOnlyVariablesAll(prims, args, a, b);
    case Other(_) =>
  }

  lemma {:induction false} ReadsOnlyVariablesAll(prims: Prims, es: seq<Expr>, a: Env, b: Env)
    requires forall x :: x in VariablesAll(es) ==> Lookup(a, x) == Lookup(b, x)
    ensures EvaluateAll(prims, es, a) == EvaluateAll(prims, es, b)
    decreases es, 1
  {
    if es != [] {
      ReadsOnlyVariables(prims, es[0], a, b);
      ReadsOnlyVariablesAll(prims, es[1..], a, b);
    }
  }

  /** So evaluation depends only on `names_in` when no name is both read and called ... */
  lemma DependsOnNamesIn(prims: Prims, e: Expr, a: Env, b: Env)
    requires Variables(e) !! Called(e)
    requires forall x :: x in NamesIn(e) ==> Lookup(a, x) == Lookup(b, x)
    ensures Evaluate(prims, e, a) == Evaluate(prims, e, b)
  {
    NamesInIsVariables(e);
    ReadsOnlyVariables(prims, e, a, b);
  }

  /** ... and not otherwise: `min + min(1)` reads a variable `names_in` does not list. */
  lemma NamesInMissesACalledVariable(prims: Prims)
    ensures var e := Binary(Plus, Name("min"), Call(Name("min"), [Const(Int(1))], []));
            NamesIn(e) == {} && Evaluate(prims, e, map[]) == Err(UnknownName) &&
            Evaluate(prims, e, map["min" := NotNumber]) == Err(NotANumber)
  {
    var e := Binary(Plus, Name("min"), Call(Name("min"), [Const(Int(1))], []));
    assert Called(e.right) == {"min"} + CalledAll([Const(Int(1))]) + CalledAll([]);
    assert [Const(Int(1))][1..] == [];
    assert VariablesAll([Const(Int(1))]) == {} && NamesAll([Const(Int(1))]) == {};
  }

  /** A formula that evaluates has every variable bound to a number. */
  lemma {:induction false} EvaluatedIsBound(prims: Prims, e: Expr, env: Env)
    requires Evaluate(prims, e, env).Ok?
    ensures forall x :: x in Variables(e) ==> x in env && env[x].Number?
    decreases e, 0
  {
    match e
    case Const(_) =>
    case Name(_) =>
    case Unary(_, a) => EvaluatedIsBound(prims, a, env);
    case Binary(_, a, b) => EvaluatedIsBound(prims, a, env); EvaluatedIsBound(prims, b, env);
    case Call(func, args, keywords) => EvaluatedIsBoundAll(prims, args, env);
  }

  lemma {:induction false} EvaluatedIsBoundAll(prims: Prims, es: seq<Expr>, env: Env)
    requires EvaluateAll(prims, es, env).Ok?
    ensures forall x :: x in VariablesAll(es) ==> x in env && env[x].Number?
    decreases es, 1
  {
    if es != [] {
      EvaluatedIsBound(prims, es[0], env);
      EvaluatedIsBoundAll(prims, es[1..], env);
    }
  }

  /* ------------------------------------------------------------ storage */

  /** One structure the cost model charges for: a spec state entry or a host storage term. An entry with no
      formula costs its declared bits, as a constant. */
  datatype Structure = Structure(name: string, host: bool, bits: Expr)

  function ToReal(v: Value): real {
    match v case Int(n) => n as real case Float(r) => r
  }

  function Key(s: Structure): string {
    (if s.host then "host:" else "feature:") + s.name
  }

  datatype Charge = Charge(key: string, bits: real)

  /** `breakdown[key] = bits`: an existing key keeps its place and takes the new value. */
  function Put(breakdown: seq<Charge>, key: string, bits: real): seq<Charge> {
    if breakdown == [] then [Charge(key, bits)]
    else if breakdown[0].key == key then [Charge(key, bits)] + breakdown[1..]
    else [breakdown[0]] + Put(breakdown[1..], key, bits)
  }

  /** What one structure costs: a state entry reads the feature's values, a storage term the host's. */
  function Bits(prims: Prims, s: Structure, feature: Env, host: Env): Result<Value> {
    Evaluate(prims, s.bits, if s.host then host else feature)
  }

  function Breakdown(prims: Prims, structures: seq<Structure>, feature: Env, host: Env): Result<seq<Charge>> {
    if structures == [] then Ok([])
    else
      var last := structures[|structures| - 1];
      match Breakdown(prims, structures[..|structures| - 1], feature, host)
      case Err(f) => Err(f)
      case Ok(front) =>
        match Bits(prims, last, feature, host)
        case Err(f) => Err(f)
        case Ok(v) => Ok(Put(front, Key(last), ToReal(v)))
  }

  function Sum(breakdown: seq<Charge>): real {
    if breakdown == [] then 0.0 else breakdown[0].bits + Sum(breakdown[1..])
  }

  /** `storage_bits`: the total, over the breakdown dictionary. */
  function StorageBits(prims: Prims, structures: seq<Structure>, feature: Env, host: Env): Result<real> {
    match Breakdown(prims, structures, feature, host)
    case Err(f) => Err(f)
    case Ok(breakdown) => Ok(Sum(breakdown))
  }

  /** The cost model as the header prints it, one line per structure in macro names, summed over macro values. */
  function PrintedTotal(prims: Prims, structures: seq<Structure>, rename: map<string, string>, macros: Env): Result<real> {
    if structures == [] then Ok(0.0)
    else
      match PrintedTotal(prims, structures[..|structures| - 1], rename, macros)
      case Err(f) => Err(f)
      case Ok(front) =>
        match Evaluate(prims, Renamed(structures[|structures| - 1].bits, rename), macros)
        case Err(f) => Err(f)
        case Ok(v) => Ok(front + ToReal(v))
  }

  ghost predicate DistinctKeys(structures: seq<Structure>) {
    forall i, j :: 0 <= i < j < |structures| ==> Key(structures[i]) != Key(structures[j])
  }

  lemma {:induction false} PutFresh(breakdown: seq<Charge>, key: string, bits: real)
    requires forall c :: c in breakdown ==> c.key != key
    ensures Put(breakdown, key, bits) == breakdown + [Charge(key, bits)]
  {
    if breakdown != [] {
      PutFresh(breakdown[1..], key, bits);
      assert breakdown == [breakdown[0]] + breakdown[1..];
    }
  }

  lemma KeyIs(s: Structure)
    ensures Key(s) == if s.host then "host:" + s.name else "feature:" + s.name
  {
  }

  /** With distinct structure names the breakdown lists one charge per structure. */
  lemma {:induction false} BreakdownLists(prims: Prims, structures: seq<Structure>, feature: Env, host: Env)
    requires DistinctKeys(structures) && Breakdown(prims, structures, feature, host).Ok?
    ensures var b := Breakdown(prims, structures, feature, host).value;
            |b| == |structures| && forall i :: 0 <= i < |b| ==>
              b[i].key == Key(structures[i]) == (if structures[i].host then "host:" + structures[i].name else "feature:" + structures[i].name)
  {
    hide Bits, Key, ToReal, Put;
    if structures != [] {
      var last := |structures| - 1;
      BreakdownLists(prims, structures[..last], feature, host);
      var front := Breakdown(prims, structures[..last], feature, host).value;
      forall c | c in front
        ensures c.key != Key(structures[last])
      {
        var i :| 0 <= i < |front| && front[i] == c;
        assert structures[..last][i] == structures[i];
      }
      var v := Bits(prims, structures[last], feature, host).value;
      PutFresh(front, Key(structures[last]), ToReal(v));
    }
    forall i | 0 <= i < |structures|
      ensures Key(structures[i]) == if structures[i].host then "host:" + structures[i].name else "feature:" + structures[i].name
    {
      KeyIs(structures[i]);
    }
  }

  /* ------------------------------------------------------------ what a shared name costs */

  /** What the latest structure under a key cost, or nothing. */
  function LatestCharge(prims: Prims, structures: seq<Structure>, key: string, feature: Env, host: Env): real {
    if structures == [] then 0.0
    else
      var last := structures[|structures| - 1];
      if Key(last) == key && Bits(prims, last, feature, host).Ok? then ToReal(Bits(prims, last, feature, host).value)
      else LatestCharge(prims, structures[..|structures| - 1], key, feature, host)
  }

  /** The charges a later structure of the same name takes the place of, summed. */
  function Overwritten(prims: Prims, structures: seq<Structure>, feature: Env, host: Env): real {
    if structures == [] then 0.0
    else
      var front := structures[..|structures| - 1];
      Overwritten(prims, front, feature, host)
      + LatestCharge(prims, front, Key(structures[|structures| - 1]), feature, host)
  }

  /** The breakdown's bits under a key. */
  function Under(breakdown: seq<Charge>, key: string): real {
    if breakdown == [] then 0.0
    else if breakdown[0].key == key then breakdown[0].bits
    else Under(breakdown[1..], key)
  }

  lemma {:induction false} PutSums(breakdown: seq<Charge>, key: string, bits: real)
    ensures Sum(Put(breakdown, key, bits)) == Sum(breakdown) - Under(breakdown, key) + bits
  {
    if breakdown == [] {
      assert [Charge(key, bits)][1..] == [];
    } else if breakdown[0].key == key {
      assert ([Charge(key, bits)] + breakdown[1..])[1..] == breakdown[1..];
    } else {
      PutSums(breakdown[1..], key, bits);
      assert ([breakdown[0]] + Put(breakdown[1..], key, bits))[1..] == Put(breakdown[1..], key, bits);
    }
  }

  lemma {:induction false} PutReads(breakdown: seq<Charge>, key: string, bits: real, other: string)
    ensures Under(Put(breakdown, key, bits), other) == if other == key then bits else Under(breakdown, other)
  {
    if breakdown == [] {
      assert [Charge(key, bits)][1..] == [];
    } else if breakdown[0].key == key {
      assert ([Charge(key, bits)] + breakdown[1..])[1..] == breakdown[1..];
    } else {
      PutReads(breakdown[1..], key, bits, other);
      assert ([breakdown[0]] + Put(breakdown[1..], key, bits))[1..] == Put(breakdown[1..], key, bits);
    }
  }

  lemma {:induction false} LatestIsUnder(prims: Prims, structures: seq<Structure>, key: string, feature: Env, host: Env)
    requires Breakdown(prims, structures, feature, host).Ok?
    ensures LatestCharge(prims, structures, key, feature, host) == Under(Breakdown(prims, structures, feature, host).value, key)
  {
    hide Bits, Key, Put, Under;
    if structures == [] {
      UnderNothing(key);
    } else {
      var last := |structures| - 1;
      LatestIsUnder(prims, structures[..last], key, feature, host);
      var front := Breakdown(prims, structures[..last], feature, host).value;
      PutReads(front, Key(structures[last]), ToReal(Bits(prims, structures[last], feature, host).value), key);
    }
  }

  lemma UnderNothing(key: string)
    ensures Under([], key) == 0.0
  {
  }

  /** A charge that is positive is missed when it is overwritten. */
  ghost predicate ChargesArePositive(prims: Prims, structures: seq<Structure>, feature: Env, host: Env) {
    forall s :: s in structures ==>
                  Bits(prims, s, feature, host).Ok? && ToReal(Bits(prims, s, feature, host).value) > 0.0
  }

  lemma {:induction false} LatestOfPositive(prims: Prims, structures: seq<Structure>, key: string, feature: Env, host: Env)
    requires ChargesArePositive(prims, structures, feature, host)
    ensures LatestCharge(prims, structures, key, feature, host) >= 0.0
    ensures LatestCharge(prims, structures, key, feature, host) == 0.0 <==> forall s :: s in structures ==> Key(s) != key
  {
    hide Bits, Key, ToReal;
    if structures != [] {
      var last := |structures| - 1;
      assert structures == structures[..last] + [structures[last]];
      LatestOfPositive(prims, structures[..last], key, feature, host);
    }
  }

  /** When every structure costs something, nothing is overwritten exactly when the names are distinct. */
  lemma {:induction false} NothingOverwrittenIffDistinct(prims: Prims, structures: seq<Structure>, feature: Env, host: Env)
    requires ChargesArePositive(prims, structures, feature, host)
    ensures Overwritten(prims, structures, feature, host) >= 0.0
    ensures Overwritten(prims, structures, feature, host) == 0.0 <==> DistinctKeys(structures)
  {
    hide Bits, Key, ToReal, LatestCharge;
    if structures != [] {
      var last := |structures| - 1;
      var front := structures[..last];
      assert structures == front + [structures[last]];
      NothingOverwrittenIffDistinct(prims, front, feature, host);
      LatestOfPositive(prims, front, Key(structures[last]), feature, host);
      LastIsDistinct(structures);
    }
  }

  lemma LastIsDistinct(structures: seq<Structure>)
    requires structures != []
    ensures var last := |structures| - 1;
            DistinctKeys(structures) <==>
            DistinctKeys(structures[..last]) && forall s :: s in structures[..last] ==> Key(s) != Key(structures[last])
  {
    hide Key;
    var last := |structures| - 1;
    var front := structures[..last];
    assert forall i :: 0 <= i < last ==> front[i] == structures[i] && front[i] in front;
    if DistinctKeys(front) && forall s :: s in front ==> Key(s) != Key(structures[last]) {
      forall i, j | 0 <= i < j < |structures|
        ensures Key(structures[i]) != Key(structures[j])
      {
        assert front[i] in front;
        if j < last {
          assert Key(front[i]) != Key(front[j]);
        }
      }
    }
  }

  /** Each structure's formula has its value on its own side. */
  ghost predicate Costs(prims: Prims, structures: seq<Structure>, feature: Env, host: Env, vs: seq<Value>) {
    |vs| == |structures| &&
    forall i :: 0 <= i < |structures| ==>
      Yields(prims, structures[i].bits, if structures[i].host then host else feature, vs[i])
  }

  function SumOf(vs: seq<Value>): real {
    if vs == [] then 0.0 else SumOf(vs[..|vs| - 1]) + AsReal(vs[|vs| - 1])
  }

  /** With distinct structure names `storage_bits` is the sum of what the structures' formulas yield, and there is none if
      some formula yields nothing. */
  lemma {:induction false} StorageIsSum(prims: Prims, structures: seq<Structure>, feature: Env, host: Env, total: real)
    requires DistinctKeys(structures)
    ensures StorageBits(prims, structures, feature, host) == Ok(total) <==>
            exists vs :: Costs(prims, structures, feature, host, vs) && SumOf(vs) == total
  {
    hide Bits, Yields, Key, ToReal, Put, Breakdown;
    if vs :| Costs(prims, structures, feature, host, vs) && SumOf(vs) == total {
      CostsAreCharged(prims, structures, feature, host, vs);
    }
    if StorageBits(prims, structures, feature, host).Ok? {
      var vs := ChargedAreCosts(prims, structures, feature, host);
      CostsAreCharged(prims, structures, feature, host, vs);
    }
  }

  lemma {:induction false} CostsAreCharged(prims: Prims, structures: seq<Structure>, feature: Env, host: Env, vs: seq<Value>)
    requires DistinctKeys(structures) && Costs(prims, structures, feature, host, vs)
    ensures StorageBits(prims, structures, feature, host) == Ok(SumOf(vs))
  {
    hide Yields, Key, Put, Evaluate;
    if structures != [] {
      var last := |structures| - 1;
      var s, front := structures[last], structures[..last];
      LastIsDistinct(structures);
      CostsAreCharged(prims, front, feature, host, vs[..last]);
      EvaluatesIffYields(prims, s.bits, if s.host then host else feature, vs[last]);
      BreakdownLists(prims, front, feature, host);
      NotCharged(prims, front, feature, host, Key(s));
      PutSums(Breakdown(prims, front, feature, host).value, Key(s), ToReal(vs[last]));
    }
  }

  lemma NotCharged(prims: Prims, structures: seq<Structure>, feature: Env, host: Env, key: string)
    requires DistinctKeys(structures) && Breakdown(prims, structures, feature, host).Ok?
    requires forall s :: s in structures ==> Key(s) != key
    ensures Under(Breakdown(prims, structures, feature, host).value, key) == 0.0
  {
    hide Breakdown, Bits, Key, ToReal;
    LatestIsUnder(prims, structures, key, feature, host);
    NoneUnderKey(prims, structures, key, feature, host);
  }

  lemma {:induction false} ChargedAreCosts(prims: Prims, structures: seq<Structure>, feature: Env, host: Env) returns (vs: seq<Value>)
    requires StorageBits(prims, structures, feature, host).Ok?
    ensures Costs(prims, structures, feature, host, vs)
  {
    hide Yields, Key, Put, Evaluate, ToReal;
    if structures == [] {
      vs := [];
    } else {
      var last := |structures| - 1;
      var s := structures[last];
      var front := ChargedAreCosts(prims, structures[..last], feature, host);
      var env := if s.host then host else feature;
      EvaluatesIffYields(prims, s.bits, env, Evaluate(prims, s.bits, env).value);
      vs := front + [Evaluate(prims, s.bits, env).value];
    }
  }

  /* ------------------------------------------------------------ the printed cost model */

  /** Every knob's value under its macro, which is how the parsed header holds it. */
  ghost predicate MacrosHold(rename: map<string, string>, env: Env, macros: Env) {
    forall x :: x in env ==> x in rename && rename[x] in macros && macros[rename[x]] == env[x]
  }

  /** The knobs that have a number have it under their macro. */
  ghost predicate NumbersHold(rename: map<string, string>, env: Env, macros: Env) {
    forall x :: x in env && env[x].Number? ==> x in rename && rename[x] in macros && macros[rename[x]] == env[x]
  }

  /** A name without a value has none under its macro either. */
  ghost predicate InScope(names: set<string>, rename: map<string, string>, env: Env, macros: Env) {
    forall x :: x in names ==> x in env || NewName(rename, x) !in macros
  }

  /** What a printed formula needs to be its structure's: it calls no knob's name, and it either evaluates or reads
      only names of its own side. */
  ghost predicate PrintsFaithfully(prims: Prims, s: Structure, rename: map<string, string>, feature: Env, host: Env, macros: Env) {
    Called(s.bits) !! rename.Keys &&
    (Bits(prims, s, feature, host).Ok? || InScope(Variables(s.bits), rename, if s.host then host else feature, macros))
  }

  /** The cost model printed in a header, evaluated on the header's own values, is `storage_bits` plus what structures
      under one name overwrite of each other, and it faults where `storage_bits` does, with the same fault. */
  lemma {:induction false} PrintedIsStoragePlusOverwritten(prims: Prims, structures: seq<Structure>, rename: map<string, string>,
                                                           feature: Env, host: Env, macros: Env)
    requires forall s :: s in structures ==> PrintsFaithfully(prims, s, rename, feature, host, macros)
    requires MacrosHold(rename, feature, macros) && MacrosHold(rename, host, macros)
    ensures PrintedTotal(prims, structures, rename, macros) ==
            match StorageBits(prims, structures, feature, host)
            case Err(f) => Err(f)
            case Ok(total) => Ok(total + Overwritten(prims, structures, feature, host))
  {
    hide Bits, Evaluate, Renamed, PrintsFaithfully, LatestCharge, Put, Key, ToReal, MacrosHold;
    if structures != [] {
      var last := |structures| - 1;
      var s, front := structures[last], structures[..last];
      assert structures == front + [s];
      PrintedIsStoragePlusOverwritten(prims, front, rename, feature, host, macros);
      SameCharge(prims, s, rename, feature, host, macros);
      if StorageBits(prims, structures, feature, host).Ok? {
        var b := Breakdown(prims, front, feature, host).value;
        PutSums(b, Key(s), ToReal(Bits(prims, s, feature, host).value));
        LatestIsUnder(prims, front, Key(s), feature, host);
      }
    }
  }

  lemma SameCharge(prims: Prims, s: Structure, rename: map<string, string>, feature: Env, host: Env, macros: Env)
    requires PrintsFaithfully(prims, s, rename, feature, host, macros)
    requires MacrosHold(rename, feature, macros) && MacrosHold(rename, host, macros)
    ensures Evaluate(prims, Renamed(s.bits, rename), macros) == Bits(prims, s, feature, host)
  {
    hide Evaluate, Renamed, Called, Variables;
    var env := if s.host then host else feature;
    if Bits(prims, s, feature, host).Ok? {
      EvaluatedIsBound(prims, s.bits, env);
    }
    RenamingPreserves(prims, s.bits, rename, env, macros);
  }

  /** So the printed model is `storage_bits`, faults included, exactly when the overwritten charges sum to nothing:
      in particular when structure names are distinct, and no oftener when every structure costs something. */
  lemma PrintedModelIsStorage(prims: Prims, structures: seq<Structure>, rename: map<string, string>,
                              feature: Env, host: Env, macros: Env)
    requires forall s :: s in structures ==> PrintsFaithfully(prims, s, rename, feature, host, macros)
    requires MacrosHold(rename, feature, macros) && MacrosHold(rename, host, macros)
    ensures PrintedTotal(prims, structures, rename, macros) == StorageBits(prims, structures, feature, host) <==>
            StorageBits(prims, structures, feature, host).Err? || Overwritten(prims, structures, feature, host) == 0.0
    ensures DistinctKeys(structures) ==>
              PrintedTotal(prims, structures, rename, macros) == StorageBits(prims, structures, feature, host)
    ensures ChargesArePositive(prims, structures, feature, host) ==>
              (PrintedTotal(prims, structures, rename, macros) == StorageBits(prims, structures, feature, host) <==>
               DistinctKeys(structures))
  {
    hide PrintedTotal, StorageBits, Overwritten, PrintsFaithfully, MacrosHold, DistinctKeys, ChargesArePositive;
    PrintedIsStoragePlusOverwritten(prims, structures, rename, feature, host, macros);
    if DistinctKeys(structures) {
      DistinctOverwritesNothing(prims, structures, feature, host);
    }
    if ChargesArePositive(prims, structures, feature, host) {
      NothingOverwrittenIffDistinct(prims, structures, feature, host);
      PositiveEvaluates(prims, structures, feature, host);
    }
  }

  /** Of a candidate whose storage evaluates, the printed model is refused if some formula calls a knob's name, and
      otherwise sums to the storage plus what is overwritten: they agree exactly when neither happens. */
  lemma {:induction false} PrintedModelIffNoneCalled(prims: Prims, structures: seq<Structure>, rename: map<string, string>,
                                                     feature: Env, host: Env, macros: Env)
    requires NumbersHold(rename, feature, macros) && NumbersHold(rename, host, macros)
    requires forall x :: x in rename ==> rename[x] !in FUNCTIONS
    requires StorageBits(prims, structures, feature, host).Ok?
    ensures PrintedTotal(prims, structures, rename, macros) ==
            if NoneCalled(structures, rename)
            then Ok(StorageBits(prims, structures, feature, host).value + Overwritten(prims, structures, feature, host))
            else Err(NotPlainArithmetic)
    ensures PrintedTotal(prims, structures, rename, macros) == StorageBits(prims, structures, feature, host) <==>
            NoneCalled(structures, rename) && Overwritten(prims, structures, feature, host) == 0.0
  {
    hide Bits, Evaluate, Renamed, Called, LatestCharge, Put, Key, ToReal, NumbersHold;
    if structures != [] {
      var last := |structures| - 1;
      var s, front := structures[last], structures[..last];
      assert structures == front + [s];
      PrintedModelIffNoneCalled(prims, front, rename, feature, host, macros);
      ChargeIffNotCalled(prims, s, rename, feature, host, macros);
      var b := Breakdown(prims, front, feature, host).value;
      PutSums(b, Key(s), ToReal(Bits(prims, s, feature, host).value));
      LatestIsUnder(prims, front, Key(s), feature, host);
    }
  }

  /** No formula calls a name that is renamed. */
  ghost predicate NoneCalled(structures: seq<Structure>, rename: map<string, string>) {
    forall s :: s in structures ==> Called(s.bits) !! rename.Keys
  }

  lemma ChargeIffNotCalled(prims: Prims, s: Structure, rename: map<string, string>, feature: Env, host: Env, macros: Env)
    requires NumbersHold(rename, feature, macros) && NumbersHold(rename, host, macros)
    requires forall x :: x in rename ==> rename[x] !in FUNCTIONS
    requires Bits(prims, s, feature, host).Ok?
    ensures Evaluate(prims, Renamed(s.bits, rename), macros) ==
            if Called(s.bits) !! rename.Keys then Bits(prims, s, feature, host) else Err(NotPlainArithmetic)
  {
    hide Evaluate, Renamed, Called, Variables;
    var env := if s.host then host else feature;
    EvaluatedIsBound(prims, s.bits, env);
    RenamingPreservesIff(prims, s.bits, rename, env, macros);
  }

  lemma {:induction false} PositiveEvaluates(prims: Prims, structures: seq<Structure>, feature: Env, host: Env)
    requires ChargesArePositive(prims, structures, feature, host)
    ensures StorageBits(prims, structures, feature, host).Ok?
  {
    hide Bits, Key, ToReal, Put;
    if structures != [] {
      var last := |structures| - 1;
      assert structures == structures[..last] + [structures[last]];
      PositiveEvaluates(prims, structures[..last], feature, host);
    }
  }

  lemma {:induction false} DistinctOverwritesNothing(prims: Prims, structures: seq<Structure>, feature: Env, host: Env)
    requires DistinctKeys(structures)
    ensures Overwritten(prims, structures, feature, host) == 0.0
  {
    hide Bits, Key, ToReal;
    if structures != [] {
      var last := |structures| - 1;
      LastIsDistinct(structures);
      DistinctOverwritesNothing(prims, structures[..last], feature, host);
      NoneUnderKey(prims, structures[..last], Key(structures[last]), feature, host);
    }
  }

  lemma {:induction false} NoneUnderKey(prims: Prims, structures: seq<Structure>, key: string, feature: Env, host: Env)
    requires forall s :: s in structures ==> Key(s) != key
    ensures LatestCharge(prims, structures, key, feature, host) == 0.0
  {
    hide Bits, Key, ToReal;
    if structures != [] {
      NoneUnderKey(prims, structures[..|structures| - 1], key, feature, host);
    }
  }

  /** Two structures under one name are charged once, though the header lists both. */
  lemma DuplicateNameChargedOnce(prims: Prims, name: string, a: int, b: int, rename: map<string, string>)
    ensures var both := [Structure(name, false, Const(Int(a))), Structure(name, false, Const(Int(b)))];
            StorageBits(prims, both, map[], map[]) == Ok(b as real) &&
            PrintedTotal(prims, both, rename, map[]) == Ok((a + b) as real)
  {
    var both := [Structure(name, false, Const(Int(a))), Structure(name, false, Const(Int(b)))];
    assert both[..1] == [both[0]] && [both[0]][..0] == [];
    assert Breakdown(prims, [both[0]], map[], map[]) == Ok([Charge(Key(both[0]), a as real)]);
    var c := Charge(Key(both[0]), a as real);
    assert [c][1..] == [] && Put([c], c.key, b as real) == [Charge(c.key, b as real)] + [] == [Charge(c.key, b as real)];
    assert Breakdown(prims, both, map[], map[]) == Ok([Charge(Key(both[0]), b as real)]);
    assert [Charge(c.key, b as real)][1..] == [];
    assert Sum([Charge(c.key, b as real)]) == b as real + Sum([]);
    assert StorageBits(prims, both, map[], map[]) == Ok(b as real);
    assert PrintedTotal(prims, [both[0]], rename, map[]) == Ok(a as real);
  }
}
