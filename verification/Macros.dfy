/**
 Preprocessor constants (scripts/chaos_eq_analyze.py): the integer evaluator
 `SafeExpression.visit` and the rounds of `parse_defines`. An expression that does not
 parse, or uses anything else, is `Unsupported`.
 */
module Macros {
  import opened Wrappers

  type Name = string

  datatype UnaryOp = Plus | Minus | Invert
  datatype BinaryOp = Add | Sub | Or | And | ShiftLeft | ShiftRight | Times | FloorDiv

  datatype Expr =
    | Constant(value: int)
    | Ref(name: Name)
    | Unary(op: UnaryOp, operand: Expr)
    | Binary(bop: BinaryOp, left: Expr, right: Expr)
    | Unsupported

  // ----- Python integers -----

  function Magnitude(a: int): nat {
    if a < 0 then -a else a
  }

  function Pow2(n: nat): (r: nat)
    ensures r > 0
  {
    if n == 0 then 1 else 2 * Pow2(n - 1)
  }

  /** `a & b` on unbounded two's complement. */
  function BitAnd(a: int, b: int): int
    decreases Magnitude(a) + Magnitude(b)
  {
    if a == 0 || b == 0 then 0
    else if a == -1 then b
    else if b == -1 then a
    else 2 * BitAnd(a / 2, b / 2) + (a % 2) * (b % 2)
  }

  function BitNot(a: int): int {
    -1 - a
  }

  /** `a | b` */
  function BitOr(a: int, b: int): int {
    BitNot(BitAnd(BitNot(a), BitNot(b)))
  }

  /** Bit `k` of the infinite two's complement of `a`. */
  function Bit(a: int, k: nat): (r: int)
    ensures r == 0 || r == 1
    decreases k
  {
    if k == 0 then a % 2 else Bit(a / 2, k - 1)
  }

  lemma {:induction false} BitOfConstant(k: nat)
    ensures Bit(0, k) == 0 && Bit(-1, k) == 1
  {
    if k > 0 {
      BitOfConstant(k - 1);
      assert -1 / 2 == -1;
    }
  }

  lemma {:induction false} BitOfAnd(a: int, b: int, k: nat)
    ensures Bit(BitAnd(a, b), k) == 1 <==> Bit(a, k) == 1 && Bit(b, k) == 1
    decreases k
  {
    BitOfConstant(k);
    if a != 0 && b != 0 && a != -1 && b != -1 {
      var r := BitAnd(a, b);
      var low := (a % 2) * (b % 2);
      assert low == 0 || low == 1;
      assert r / 2 == BitAnd(a / 2, b / 2) && r % 2 == low;
      if k > 0 {
        BitOfAnd(a / 2, b / 2, k - 1);
      }
    }
  }

  lemma {:induction false} BitOfNot(a: int, k: nat)
    ensures Bit(BitNot(a), k) == 1 - Bit(a, k)
    decreases k
  {
    if k > 0 {
      assert BitNot(a) / 2 == BitNot(a / 2);
      BitOfNot(a / 2, k - 1);
    }
  }

  lemma {:induction false} BitOfOr(a: int, b: int, k: nat)
    ensures Bit(BitOr(a, b), k) == 1 <==> Bit(a, k) == 1 || Bit(b, k) == 1
  {
    BitOfNot(a, k);
    BitOfNot(b, k);
    BitOfAnd(BitNot(a), BitNot(b), k);
    BitOfNot(BitAnd(BitNot(a), BitNot(b)), k);
  }

  /** `a // b`, rounding down; None for a zero divisor. */
  function Floor(a: int, b: int): (r: Option<int>)
    ensures r.None? <==> b == 0
    ensures b > 0 ==> r.value * b <= a < (r.value + 1) * b
    ensures b < 0 ==> r.value * b >= a > (r.value + 1) * b
  {
    if b == 0 then None
    else if b > 0 then
      assert (a / b) * b + a % b == a;
      Some(a / b)
    else
      assert ((-a) / (-b)) * (-b) + (-a) % (-b) == -a;
      Some((-a) / (-b))
  }

  function Operate(op: BinaryOp, a: int, b: int): Option<int> {
    match op
    case Add => Some(a + b)
    case Sub => Some(a - b)
    case Or => Some(BitOr(a, b))
    case And => Some(BitAnd(a, b))
    case ShiftLeft => if b < 0 then None else Some(a * Pow2(b))
    case ShiftRight => if b < 0 then None else Floor(a, Pow2(b))
    case Times => Some(a * b)
    case FloorDiv => Floor(a, b)
  }

  function Negate(op: UnaryOp, a: int): int {
    match op
    case Plus => a
    case Minus => -a
    case Invert => BitNot(a)
  }

  /** `SafeExpression.visit`; None where it raises. */
  function Eval(values: map<Name, int>, e: Expr): Option<int> {
    match e
    case Constant(value) => Some(value)
    case Ref(name) => if name in values then Some(values[name]) else None
    case Unary(op, operand) =>
      (match Eval(values, operand) case None => None case Some(a) => Some(Negate(op, a)))
    case Binary(op, left, right) =>
      (match (Eval(values, left), Eval(values, right))
       case (Some(a), Some(b)) => Operate(op, a, b)
       case _ => None)
    case Unsupported => None
  }

  // ----- the table -----

  datatype Macro = Macro(name: Name, body: Expr)

  ghost predicate UniqueNames(raw: seq<Macro>) {
    forall i, j | 0 <= i < j < |raw| :: raw[i].name != raw[j].name
  }

  /** `raw[name] = expression` on an insertion-ordered dictionary. */
  function Define(raw: seq<Macro>, macro: Macro): seq<Macro> {
    if raw == [] then [macro]
    else if raw[0].name == macro.name then [macro] + raw[1..]
    else [raw[0]] + Define(raw[1..], macro)
  }

  /** What the line loop collects: of several definitions of a name, the last. */
  function Collect(lines: seq<Macro>): seq<Macro> {
    if lines == [] then [] else Define(Collect(lines[..|lines| - 1]), lines[|lines| - 1])
  }

  lemma {:induction false} DefineReplaces(raw: seq<Macro>, macro: Macro)
    requires UniqueNames(raw)
    ensures UniqueNames(Define(raw, macro))
    ensures forall m :: m in Define(raw, macro) <==> m == macro || (m in raw && m.name != macro.name)
  {
    if raw != [] {
      assert raw == [raw[0]] + raw[1..];
      if raw[0].name != macro.name {
        DefineReplaces(raw[1..], macro);
        forall m | m in Define(raw[1..], macro)
          ensures m.name != raw[0].name
        {
        }
      }
    }
  }

  // ----- what a macro denotes -----

  function BodyOf(raw: seq<Macro>, name: Name): (r: Option<Expr>)
    ensures r.Some? ==> exists i :: 0 <= i < |raw| && raw[i] == Macro(name, r.value)
    ensures r.None? ==> forall i | 0 <= i < |raw| :: raw[i].name != name
  {
    if raw == [] then None
    else if raw[|raw| - 1].name == name then Some(raw[|raw| - 1].body)
    else BodyOf(raw[..|raw| - 1], name)
  }

  lemma {:induction false} BodyIsUnique(raw: seq<Macro>, i: nat)
    requires UniqueNames(raw) && i < |raw|
    ensures BodyOf(raw, raw[i].name) == Some(raw[i].body)
  {
  }

  lemma {:induction false} DefineLookup(raw: seq<Macro>, macro: Macro, name: Name)
    requires UniqueNames(raw)
    ensures BodyOf(Define(raw, macro), name) == if name == macro.name then Some(macro.body) else BodyOf(raw, name)
  {
    var defined := Define(raw, macro);
    DefineReplaces(raw, macro);
    if name == macro.name {
      assert macro in defined;
      var i :| 0 <= i < |defined| && defined[i] == macro;
      BodyIsUnique(defined, i);
    } else if BodyOf(raw, name).Some? {
      assert Macro(name, BodyOf(raw, name).value) in defined;
      var i :| 0 <= i < |defined| && defined[i] == Macro(name, BodyOf(raw, name).value);
      BodyIsUnique(defined, i);
    } else {
      forall i | 0 <= i < |defined|
        ensures defined[i].name != name
      {
        assert defined[i] in defined;
      }
    }
  }

  /** The table holds each name once, with the last definition the lines give it. */
  lemma {:induction false} LastDefinitionWins(lines: seq<Macro>)
    ensures UniqueNames(Collect(lines))
    ensures forall name :: BodyOf(Collect(lines), name) == BodyOf(lines, name)
  {
    if lines != [] {
      var front, last := lines[..|lines| - 1], lines[|lines| - 1];
      LastDefinitionWins(front);
      DefineReplaces(Collect(front), last);
      forall name
        ensures BodyOf(Collect(lines), name) == BodyOf(lines, name)
      {
        DefineLookup(Collect(front), last, name);
      }
    }
  }

  /**
   The value of an expression when names stand for the values of their definitions,
   expanded at most `depth` deep; a preset name is its preset.
   */
  function Denotes(presets: map<Name, int>, raw: seq<Macro>, e: Expr, depth: nat): Option<int>
    decreases depth, e
  {
    match e
    case Constant(value) => Some(value)
    case Ref(name) =>
      if name in presets then Some(presets[name])
      else if depth == 0 || BodyOf(raw, name).None? then None
      else Denotes(presets, raw, BodyOf(raw, name).value, depth - 1)
    case Unary(op, operand) =>
      (match Denotes(presets, raw, operand, depth) case None => None case Some(a) => Some(Negate(op, a)))
    case Binary(op, left, right) =>
      (match (Denotes(presets, raw, left, depth), Denotes(presets, raw, right, depth))
       case (Some(a), Some(b)) => Operate(op, a, b)
       case _ => None)
    case Unsupported => None
  }

  /** A deeper expansion never changes a value. */
  lemma {:induction false} DeeperAgrees(presets: map<Name, int>, raw: seq<Macro>, e: Expr, depth: nat, more: nat)
    requires depth <= more && Denotes(presets, raw, e, depth).Some?
    ensures Denotes(presets, raw, e, more) == Denotes(presets, raw, e, depth)
    decreases depth, e
  {
    match e
    case Ref(name) =>
      if name !in presets {
        DeeperAgrees(presets, raw, BodyOf(raw, name).value, depth - 1, more - 1);
      }
    case Unary(op, operand) => DeeperAgrees(presets, raw, operand, depth, more);
    case Binary(op, left, right) =>
      DeeperAgrees(presets, raw, left, depth, more);
      DeeperAgrees(presets, raw, right, depth, more);
    case _ =>
  }

  /** Every value in the table is what its name denotes. */
  ghost predicate Sound(presets: map<Name, int>, raw: seq<Macro>, values: map<Name, int>, depth: nat) {
    forall name | name in values :: Denotes(presets, raw, Ref(name), depth) == Some(values[name])
  }

  /** Every name that denotes a value within `depth` is in the table. */
  ghost predicate Complete(presets: map<Name, int>, raw: seq<Macro>, values: map<Name, int>, depth: nat) {
    forall name | Denotes(presets, raw, Ref(name), depth).Some? :: name in values
  }

  lemma {:induction false} EvalIsSound(presets: map<Name, int>, raw: seq<Macro>, values: map<Name, int>, e: Expr,
                                       depth: nat)
    requires Sound(presets, raw, values, depth) && Eval(values, e).Some?
    ensures Denotes(presets, raw, e, depth) == Eval(values, e)
  {
    match e
    case Unary(op, operand) => EvalIsSound(presets, raw, values, operand, depth);
    case Binary(op, left, right) =>
      EvalIsSound(presets, raw, values, left, depth);
      EvalIsSound(presets, raw, values, right, depth);
    case _ =>
  }

  function Names(e: Expr): set<Name> {
    match e
    case Ref(name) => {name}
    case Unary(_, operand) => Names(operand)
    case Binary(_, left, right) => Names(left) + Names(right)
    case _ => {}
  }

  lemma {:induction false} SameDenotation(presets: map<Name, int>, raw: seq<Macro>, e: Expr, a: nat, b: nat)
    requires Denotes(presets, raw, e, a).Some? && Denotes(presets, raw, e, b).Some?
    ensures Denotes(presets, raw, e, a) == Denotes(presets, raw, e, b)
  {
    DeeperAgrees(presets, raw, e, if a <= b then a else b, if a <= b then b else a);
  }

  /** A sound table that knows the names an expression mentions evaluates it to what it denotes. */
  lemma {:induction false} EvalIsComplete(presets: map<Name, int>, raw: seq<Macro>, values: map<Name, int>, e: Expr,
                                          depth: nat, sound: nat)
    requires Sound(presets, raw, values, sound) && Denotes(presets, raw, e, depth).Some?
    requires forall name | name in Names(e) && Denotes(presets, raw, Ref(name), depth).Some? :: name in values
    ensures Eval(values, e) == Denotes(presets, raw, e, depth)
  {
    match e
    case Ref(name) => SameDenotation(presets, raw, e, depth, sound);
    case Unary(op, operand) => EvalIsComplete(presets, raw, values, operand, depth, sound);
    case Binary(op, left, right) =>
      EvalIsComplete(presets, raw, values, left, depth, sound);
      EvalIsComplete(presets, raw, values, right, depth, sound);
    case _ =>
  }

  /** An expression denotes nothing unless everything it mentions does. */
  lemma {:induction false} Strict(presets: map<Name, int>, raw: seq<Macro>, e: Expr, depth: nat)
    requires Denotes(presets, raw, e, depth).Some?
    ensures forall name | name in Names(e) :: Denotes(presets, raw, Ref(name), depth).Some?
  {
    match e
    case Unary(op, operand) => Strict(presets, raw, operand, depth);
    case Binary(op, left, right) =>
      Strict(presets, raw, left, depth);
      Strict(presets, raw, right, depth);
    case _ =>
  }

  // ----- cycles -----

  /** Each name's definition mentions the next. */
  ghost predicate MentionPath(presets: map<Name, int>, raw: seq<Macro>, path: seq<Name>) {
    forall i | 0 <= i < |path| - 1 ::
      path[i] !in presets && BodyOf(raw, path[i]).Some? && path[i + 1] in Names(BodyOf(raw, path[i]).value)
  }

  lemma {:induction false} PathUsesDepth(presets: map<Name, int>, raw: seq<Macro>, path: seq<Name>, depth: nat)
    requires path != [] && MentionPath(presets, raw, path) && Denotes(presets, raw, Ref(path[0]), depth).Some?
    ensures |path| - 1 <= depth
    ensures Denotes(presets, raw, Ref(path[|path| - 1]), depth - (|path| - 1)).Some?
  {
    if |path| > 1 {
      Strict(presets, raw, BodyOf(raw, path[0]).value, depth - 1);
      PathUsesDepth(presets, raw, path[1..], depth - 1);
    }
  }

  /** A name on a cycle of definitions denotes nothing, at any depth, and so is in no sound table. */
  lemma {:induction false} CyclesDenoteNothing(presets: map<Name, int>, raw: seq<Macro>, path: seq<Name>, depth: nat)
    requires |path| >= 2 && path[0] == path[|path| - 1] && MentionPath(presets, raw, path)
    ensures Denotes(presets, raw, Ref(path[0]), depth).None?
    ensures forall values | Sound(presets, raw, values, depth) :: path[0] !in values
  {
    if Denotes(presets, raw, Ref(path[0]), depth).Some? {
      PathUsesDepth(presets, raw, path, depth);
      CyclesDenoteNothing(presets, raw, path, depth - (|path| - 1));
    }
  }

  // ----- the rounds -----

  predicate BitPrefixed(name: Name) {
    |name| >= 4 && name[..4] == "BIT_"
  }

  ghost predicate Keeps(before: map<Name, int>, after: map<Name, int>) {
    forall name | name in before :: name in after && after[name] == before[name]
  }

  /** Evaluating any definition adds nothing. */
  ghost predicate Closed(raw: seq<Macro>, values: map<Name, int>) {
    forall i | 0 <= i < |raw| && Eval(values, raw[i].body).Some? :: raw[i].name in values
  }

  /** Definitions mention only presets, undefined names and names defined earlier. */
  ghost predicate DefinedBeforeUse(presets: map<Name, int>, raw: seq<Macro>) {
    forall i, j | 0 <= i <= j < |raw| :: raw[j].name in presets || raw[j].name !in Names(raw[i].body)
  }

  /** The other way round: definitions mention no name defined earlier. */
  ghost predicate UsedBeforeDefined(presets: map<Name, int>, raw: seq<Macro>) {
    forall i, j | 0 <= j < i < |raw| :: raw[j].name in presets || raw[j].name !in Names(raw[i].body)
  }

  /** Whatever the table has gained since the round began comes from its first `n` definitions. */
  ghost predicate GainedFrom(raw: seq<Macro>, values: map<Name, int>, after: map<Name, int>, n: nat) {
    n <= |raw| && Keeps(values, after)
        && forall name | name in after :: name in values || exists j :: 0 <= j < n && raw[j].name == name
  }

  lemma {:induction false} EvalAgrees(values: map<Name, int>, after: map<Name, int>, e: Expr)
    requires Keeps(values, after) && forall name | name in Names(e) && name in after :: name in values
    ensures Eval(after, e) == Eval(values, e)
  {
    match e
    case Unary(op, operand) => EvalAgrees(values, after, operand);
    case Binary(op, left, right) =>
      EvalAgrees(values, after, left);
      EvalAgrees(values, after, right);
    case _ =>
  }

  /** In the opposite order a round sees, of every mentioned name, only what earlier rounds found. */
  lemma {:induction false} LateStep(presets: map<Name, int>, raw: seq<Macro>, values: map<Name, int>,
                                    after: map<Name, int>, i: nat, depth: nat)
    requires UniqueNames(raw) && Keeps(presets, values) && Sound(presets, raw, values, depth)
             && UsedBeforeDefined(presets, raw)
    requires i < |raw| && GainedFrom(raw, values, after, i) && raw[i].name !in presets && Eval(after, raw[i].body).Some?
    ensures Denotes(presets, raw, Ref(raw[i].name), depth + 1) == Eval(after, raw[i].body)
  {
    hide UniqueNames;
    BodyIsUnique(raw, i);
    EvalAgrees(values, after, raw[i].body);
    EvalIsSound(presets, raw, values, raw[i].body, depth);
  }

  /** The table after a definition in the opposite order: still nothing deeper than one more level. */
  lemma {:induction false} LateRound(presets: map<Name, int>, raw: seq<Macro>, values: map<Name, int>,
                                     before: map<Name, int>, after: map<Name, int>,
                  i: nat, depth: nat)
    requires UniqueNames(raw) && Keeps(presets, values) && Sound(presets, raw, values, depth)
             && UsedBeforeDefined(presets, raw)
    requires i < |raw| && GainedFrom(raw, values, before, i) && Sound(presets, raw, before, depth + 1)
             && Keeps(before, after)
    requires after == before ||
             (raw[i].name !in presets && Eval(before, raw[i].body).Some?
              && after == before[raw[i].name := Eval(before, raw[i].body).value])
    ensures GainedFrom(raw, values, after, i + 1) && Sound(presets, raw, after, depth + 1)
  {
    hide UniqueNames, UsedBeforeDefined, Denotes, Eval;
    if after != before {
      LateStep(presets, raw, values, before, i, depth);
    }
    forall name | name in after
      ensures name in values || exists j :: 0 <= j < i + 1 && raw[j].name == name
    {
      if name in before && name !in values {
        var j :| 0 <= j < i && raw[j].name == name;
      }
    }
  }

  lemma {:induction false} DeeperSound(presets: map<Name, int>, raw: seq<Macro>, values: map<Name, int>, depth: nat,
                                       more: nat)
    requires Sound(presets, raw, values, depth) && depth <= more
    ensures Sound(presets, raw, values, more)
  {
    forall name | name in values
      ensures Denotes(presets, raw, Ref(name), more) == Some(values[name])
    {
      DeeperAgrees(presets, raw, Ref(name), depth, more);
    }
  }

  ghost predicate Ready(presets: map<Name, int>, raw: seq<Macro>, values: map<Name, int>, depth: nat) {
    && UniqueNames(raw) && (forall name | name in presets :: BitPrefixed(name))
    && Keeps(presets, values) && Sound(presets, raw, values, depth)
  }

  /** A table closed under evaluation has every name that denotes a value at any depth. */
  lemma {:induction false} ClosedIsComplete(presets: map<Name, int>, raw: seq<Macro>, values: map<Name, int>,
                                            depth: nat, sound: nat)
    requires Ready(presets, raw, values, sound) && Closed(raw, values)
    ensures Complete(presets, raw, values, depth)
  {
    if depth > 0 {
      ClosedIsComplete(presets, raw, values, depth - 1, sound);
    }
    forall name | Denotes(presets, raw, Ref(name), depth).Some?
      ensures name in values
    {
      if name !in presets {
        var body := BodyOf(raw, name).value;
        EvalIsComplete(presets, raw, values, body, depth - 1, sound);
      }
    }
  }

  /** One assignment: nothing already in the table changes. */
  lemma {:induction false} Assigned(presets: map<Name, int>, raw: seq<Macro>, values: map<Name, int>, i: nat,
                                    depth: nat)
    requires Ready(presets, raw, values, depth) && i < |raw| && raw[i].name !in presets
    requires Eval(values, raw[i].body).Some?
    ensures var name, result := raw[i].name, Eval(values, raw[i].body).value;
            && (name in values ==> values[name] == result)
            && Ready(presets, raw, values[name := result], depth + 1)
  {
    hide UniqueNames;
    var name, body := raw[i].name, raw[i].body;
    BodyIsUnique(raw, i);
    EvalIsSound(presets, raw, values, body, depth);
    assert Denotes(presets, raw, Ref(name), depth + 1) == Eval(values, body);
    if name in values {
      SameDenotation(presets, raw, Ref(name), depth, depth + 1);
    }
    forall other | other in values
      ensures Denotes(presets, raw, Ref(other), depth + 1) == Some(values[other])
    {
      DeeperAgrees(presets, raw, Ref(other), depth, depth + 1);
    }
  }

  /** What the first `n` definitions have contributed in a round that started with every name of `depth`. */
  ghost predicate Contributed(presets: map<Name, int>, raw: seq<Macro>, values: map<Name, int>, n: nat, depth: nat) {
    n <= |raw| && forall i | 0 <= i < n && Denotes(presets, raw, raw[i].body, depth).Some? :: raw[i].name in values
  }

  /** The same for every depth at once. */
  ghost predicate AlwaysContributed(presets: map<Name, int>, raw: seq<Macro>, values: map<Name, int>, n: nat) {
    n <= |raw| && forall i, d: nat | 0 <= i < n && Denotes(presets, raw, raw[i].body, d).Some? :: raw[i].name in values
  }

  lemma {:induction false} RoundCompletes(presets: map<Name, int>, raw: seq<Macro>, values: map<Name, int>, depth: nat)
    requires Keeps(presets, values) && Contributed(presets, raw, values, |raw|, depth)
    ensures Complete(presets, raw, values, depth + 1)
  {
    forall name | Denotes(presets, raw, Ref(name), depth + 1).Some?
      ensures name in values
    {
      if name !in presets {
        var body := BodyOf(raw, name).value;
        var i :| 0 <= i < |raw| && raw[i] == Macro(name, body);
      }
    }
  }

  /** In definition order, the names a definition mentions have been seen to already. */
  lemma {:induction false} EarlierSuffices(presets: map<Name, int>, raw: seq<Macro>, values: map<Name, int>, i: nat,
                                           depth: nat, sound: nat)
    requires Ready(presets, raw, values, sound) && DefinedBeforeUse(presets, raw) && i < |raw|
    requires AlwaysContributed(presets, raw, values, i)
    requires Denotes(presets, raw, raw[i].body, depth).Some?
    ensures Eval(values, raw[i].body).Some?
  {
    forall name | name in Names(raw[i].body) && Denotes(presets, raw, Ref(name), depth).Some?
      ensures name in values
    {
      if name !in presets {
        var body := BodyOf(raw, name).value;
        var j :| 0 <= j < |raw| && raw[j] == Macro(name, body);
        assert raw[j].name in Names(raw[i].body);
        assert j < i;
        assert Denotes(presets, raw, raw[j].body, depth - 1).Some?;
      }
    }
    EvalIsComplete(presets, raw, values, raw[i].body, depth, sound);
  }

  /** One pass over the table. */
  method Round(presets: map<Name, int>, raw: seq<Macro>, values: map<Name, int>, ghost depth: nat, ghost sound: nat)
    returns (after: map<Name, int>, changed: bool, ghost deeper: nat)
    requires Ready(presets, raw, values, sound) && Complete(presets, raw, values, depth)
    ensures Ready(presets, raw, after, deeper) && Keeps(values, after)
    ensures Complete(presets, raw, after, depth + 1)
    ensures !changed ==> after == values && Closed(raw, values)
    ensures DefinedBeforeUse(presets, raw) ==> forall d: nat :: Complete(presets, raw, after, d)
    ensures UsedBeforeDefined(presets, raw) && Sound(presets, raw, values, depth) ==>
              Sound(presets, raw, after, depth + 1)
  {
    hide Sound, Denotes, DefinedBeforeUse, UsedBeforeDefined, Eval, UniqueNames;
    ghost var late := UsedBeforeDefined(presets, raw) && Sound(presets, raw, values, depth);
    if late {
      DeeperSound(presets, raw, values, depth, depth + 1);
    }
    after, changed, deeper := values, false, sound;
    for i := 0 to |raw|
      invariant Ready(presets, raw, after, deeper) && Keeps(values, after)
      invariant Contributed(presets, raw, after, i, depth)
      invariant !changed ==>
                  after == values && forall j | 0 <= j < i && Eval(values, raw[j].body).Some? :: raw[j].name in values
      invariant DefinedBeforeUse(presets, raw) ==> AlwaysContributed(presets, raw, after, i)
      invariant late ==> GainedFrom(raw, values, after, i) && Sound(presets, raw, after, depth + 1)
    {
      var name, body := raw[i].name, raw[i].body;
      ghost var before := after;
      if !(name in after && BitPrefixed(name)) {
        StepContributes(presets, raw, after, i, depth, deeper);
        var result := Eval(after, body);
        if result.Some? {
          Assigned(presets, raw, after, i, deeper);
          if name !in after || after[name] != result.value {
            after := after[name := result.value];
            changed := true;
            deeper := deeper + 1;
          }
        }
      }
      assert Keeps(before, after);
      if DefinedBeforeUse(presets, raw) {
        AllContributed(presets, raw, before, after, i);
      }
      if late {
        LateRound(presets, raw, values, before, after, i, depth);
      }
    }
    RoundCompletes(presets, raw, after, depth);
    if DefinedBeforeUse(presets, raw) {
      forall d: nat
        ensures Complete(presets, raw, after, d)
      {
        RoundCompletes(presets, raw, after, d);
        LessDeep(presets, raw, after, d);
      }
    }
  }

  lemma {:induction false} AllContributed(presets: map<Name, int>, raw: seq<Macro>, before: map<Name, int>,
                                          after: map<Name, int>, i: nat)
    requires i < |raw| && Keeps(before, after) && AlwaysContributed(presets, raw, before, i)
    requires forall d: nat | Denotes(presets, raw, raw[i].body, d).Some? :: raw[i].name in after
    ensures AlwaysContributed(presets, raw, after, i + 1)
  {
    hide Denotes;
  }

  lemma {:induction false} LessDeep(presets: map<Name, int>, raw: seq<Macro>, values: map<Name, int>, depth: nat)
    requires Complete(presets, raw, values, depth + 1)
    ensures Complete(presets, raw, values, depth)
  {
    forall name | Denotes(presets, raw, Ref(name), depth).Some?
      ensures name in values
    {
      DeeperAgrees(presets, raw, Ref(name), depth, depth + 1);
    }
  }

  /** A definition that denotes a value evaluates when its turn comes. */
  lemma {:induction false} StepContributes(presets: map<Name, int>, raw: seq<Macro>, values: map<Name, int>, i: nat,
                                           depth: nat, sound: nat)
    requires Ready(presets, raw, values, sound) && i < |raw|
    requires forall name | Denotes(presets, raw, Ref(name), depth).Some? :: name in values
    requires DefinedBeforeUse(presets, raw) ==> AlwaysContributed(presets, raw, values, i)
    ensures Denotes(presets, raw, raw[i].body, depth).Some? ==> Eval(values, raw[i].body).Some?
    ensures DefinedBeforeUse(presets, raw) ==>
              forall d: nat | Denotes(presets, raw, raw[i].body, d).Some? :: Eval(values, raw[i].body).Some?
  {
    if Denotes(presets, raw, raw[i].body, depth).Some? {
      EvalIsComplete(presets, raw, values, raw[i].body, depth, sound);
    }
    if DefinedBeforeUse(presets, raw) {
      forall d: nat | Denotes(presets, raw, raw[i].body, d).Some?
        ensures Eval(values, raw[i].body).Some?
      {
        EarlierSuffices(presets, raw, values, i, d, sound);
      }
    }
  }

  const ROUNDS: nat := 8

  /** The rounds of `parse_defines`, over any preset bits and any table. */
  method Resolve(presets: map<Name, int>, raw: seq<Macro>) returns (values: map<Name, int>)
    requires UniqueNames(raw) && forall name | name in presets :: BitPrefixed(name)
    ensures Keeps(presets, values)
    ensures exists sound: nat :: Sound(presets, raw, values, sound)
    ensures Complete(presets, raw, values, ROUNDS)
    ensures DefinedBeforeUse(presets, raw) ==> forall d: nat :: Complete(presets, raw, values, d)
    ensures UsedBeforeDefined(presets, raw) ==> Sound(presets, raw, values, ROUNDS)
  {
    hide Denotes, DefinedBeforeUse, UsedBeforeDefined, UniqueNames, Closed;
    values := presets;
    ghost var sound := 0;
    PresetsAreReady(presets, raw);
    var changed := true;
    for k := 0 to ROUNDS
      invariant Ready(presets, raw, values, sound)
      invariant Complete(presets, raw, values, k)
      invariant UsedBeforeDefined(presets, raw) ==> Sound(presets, raw, values, k)
      invariant changed && k > 0 && DefinedBeforeUse(presets, raw) ==>
                  forall d: nat :: Complete(presets, raw, values, d)
    {
      values, changed, sound := Round(presets, raw, values, k, sound);
      if !changed {
        if UsedBeforeDefined(presets, raw) {
          DeeperSound(presets, raw, values, k + 1, ROUNDS);
        }
        forall d: nat
          ensures Complete(presets, raw, values, d)
        {
          ClosedIsComplete(presets, raw, values, d, sound);
        }
        return;
      }
    }
  }

  lemma {:induction false} PresetsAreReady(presets: map<Name, int>, raw: seq<Macro>)
    ensures Keeps(presets, presets) && Sound(presets, raw, presets, 0) && Complete(presets, raw, presets, 0)
  {
  }

  // ----- the preset bits -----

  function Numeral(n: nat): (r: string)
    ensures r != []
  {
    if n < 10 then ['0' + n as char] else Numeral(n / 10) + ['0' + (n % 10) as char]
  }

  function NumeralValue(s: string): int {
    if s == [] then 0 else NumeralValue(s[..|s| - 1]) * 10 + s[|s| - 1] as int - '0' as int
  }

  lemma {:induction false} NumeralRoundTrip(n: nat)
    ensures NumeralValue(Numeral(n)) == n
  {
    var r := Numeral(n);
    if n < 10 {
      assert r[..0] == [];
    } else {
      NumeralRoundTrip(n / 10);
      assert r[..|r| - 1] == Numeral(n / 10);
    }
  }

  function BitName(n: nat): Name {
    "BIT_" + Numeral(n)
  }

  lemma {:induction false} BitNamesDiffer(m: nat, n: nat)
    requires BitName(m) == BitName(n)
    ensures m == n
  {
    assert BitName(m)[4..] == Numeral(m) && BitName(n)[4..] == Numeral(n);
    NumeralRoundTrip(m);
    NumeralRoundTrip(n);
  }

  const LAST_BIT: nat := 64

  /** `{f"BIT_{n}": 1 << (n - 1) for n in range(1, 65)}` */
  method BitPresets() returns (presets: map<Name, int>)
    ensures forall name :: name in presets <==> exists n: nat :: 1 <= n <= LAST_BIT && name == BitName(n)
    ensures forall n: nat | 1 <= n <= LAST_BIT :: BitName(n) in presets && presets[BitName(n)] == Pow2(n - 1)
    ensures forall name | name in presets :: BitPrefixed(name)
  {
    presets := map[];
    for n := 1 to LAST_BIT + 1
      invariant forall name :: name in presets <==> exists k: nat :: 1 <= k < n && name == BitName(k)
      invariant forall k: nat | 1 <= k < n :: BitName(k) in presets && presets[BitName(k)] == Pow2(k - 1)
    {
      forall k: nat | 1 <= k < n
        ensures BitName(k) != BitName(n)
      {
        if BitName(k) == BitName(n) {
          BitNamesDiffer(k, n);
        }
      }
      presets := presets[BitName(n) := Pow2(n - 1)];
    }
  }

  /** `parse_defines`, from the definitions in file order. */
  method ParseDefines(lines: seq<Macro>) returns (values: map<Name, int>, ghost presets: map<Name, int>)
    ensures forall n: nat | 1 <= n <= LAST_BIT :: BitName(n) in values && values[BitName(n)] == Pow2(n - 1)
    ensures exists sound: nat :: Sound(presets, Collect(lines), values, sound)
    ensures Complete(presets, Collect(lines), values, ROUNDS)
    ensures DefinedBeforeUse(presets, Collect(lines)) ==> forall d: nat :: Complete(presets, Collect(lines), values, d)
    ensures UsedBeforeDefined(presets, Collect(lines)) ==>
              forall name :: name in values <==> Denotes(presets, Collect(lines), Ref(name), ROUNDS).Some?
    ensures forall name :: name in presets <==> exists n: nat :: 1 <= n <= LAST_BIT && name == BitName(n)
  {
    hide BitName, DefinedBeforeUse, UsedBeforeDefined, Denotes;
    var bits := BitPresets();
    presets := bits;
    var raw: seq<Macro> := [];
    for i := 0 to |lines|
      invariant raw == Collect(lines[..i])
    {
      assert lines[..i + 1][..i] == lines[..i];
      raw := Define(raw, lines[i]);
    }
    assert lines[..|lines|] == lines;
    LastDefinitionWins(lines);
    values := Resolve(bits, raw);
  }
}
