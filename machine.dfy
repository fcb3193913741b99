/**
 * The evaluator's semantics as pure functions (src/main.rs:80-142): what one
 * operation does to the stack, what one token does, and the run over a whole
 * token sequence, which halts at the first fault. The three ways the source
 * panics become the three kinds of `Fault`.
 */
module Machine {
  import opened Wrappers
  import opened Numerals
  import opened Lexer
  import opened Dictionary

  /** The stack, top last (`Vec<u32>` with `push`/`pop`). */
  type Stack = seq<U32>

  datatype Fault =
    | UnknownWord(word: string)   // `dict[...]` on a missing key
    | StackUnderflow(op: Op)      // `pop().unwrap()` on an empty stack
    | ArithmeticFault(op: Op)     // u32 overflow, negative difference, division by zero

  /** The stack after a step and the values it printed. */
  datatype Effect = Effect(stack: Stack, printed: seq<U32>)

  /** How many elements an operation pops before it pushes. */
  function Arity(op: Op): nat {
    match op
    case Print | Dup | Drop => 1
    case Add | Sub | Mul | Div | Over | Swap => 2
    case Rotate => 3
  }

  /** The net change of depth an operation makes. */
  function Delta(op: Op): int {
    match op
    case Dup | Over => 1
    case Rotate | Swap => 0
    case Print | Drop | Add | Sub | Mul | Div => -1
  }

  /** The result of an operation on a stack with `base` beneath the elements it touches. */
  function Beneath(base: Stack, r: Result<Effect, Fault>): Result<Effect, Fault> {
    match r
    case Ok(e) => Ok(Effect(base + e.stack, e.printed))
    case Err(f) => Err(f)
  }

  /**
   * The stack effect of each operation on exactly the elements it pops,
   * written bottom to top with x on top and y beneath it.
   */
  function Effects(op: Op, top: Stack): Result<Effect, Fault>
    requires |top| == Arity(op)
  {
    match op
    case Print => Ok(Effect([], [top[0]]))                       // ( x -- ), prints x
    case Add =>                                                  // ( y x -- y+x )
      if top[0] + top[1] > MaxU32 then Err(ArithmeticFault(op))
      else Ok(Effect([top[0] + top[1]], []))
    case Sub =>                                                  // ( y x -- y-x )
      if top[0] < top[1] then Err(ArithmeticFault(op))
      else Ok(Effect([top[0] - top[1]], []))
    case Mul =>                                                  // ( y x -- y*x )
      if top[0] * top[1] > MaxU32 then Err(ArithmeticFault(op))
      else Ok(Effect([top[0] * top[1]], []))
    case Div =>                                                  // ( y x -- y/x )
      if top[1] == 0 then Err(ArithmeticFault(op))
      else Ok(Effect([top[0] / top[1]], []))
    case Dup => Ok(Effect([top[0], top[0]], []))                 // ( x -- x x )
    case Rotate => Ok(Effect([top[1], top[0], top[2]], []))      // ( z y x -- y z x )
    case Over => Ok(Effect([top[1], top[0], top[1]], []))        // ( y x -- x y x )
    case Swap => Ok(Effect([top[0], top[1]], []))                // ( y x -- y x )
    case Drop => Ok(Effect([], []))                              // ( x -- )
  }

  /** An operation on the whole stack: underflow, or its effect on the top elements. */
  function Apply(op: Op, s: Stack): Result<Effect, Fault> {
    var k := |s| - Arity(op);
    if k < 0 then Err(StackUnderflow(op))
    else Beneath(s[..k], Effects(op, s[k..]))
  }

  /** One iteration of the evaluation loop (src/main.rs:83-141). */
  function Step(s: Stack, t: Token): Result<Effect, Fault> {
    match t
    case Integer(n) => Ok(Effect(s + [n], []))
    case Word(w) =>
      match Lookup(w)
      case None => Err(UnknownWord(w))
      case Some(op) => Apply(op, s)
  }

  /** How a run ends: every token consumed, or halted at token `at`. */
  datatype Outcome =
    | Completed(stack: Stack, output: seq<U32>)
    | Halted(fault: Fault, output: seq<U32>, at: nat)

  /** The outcome of a run preceded by `skipped` tokens that printed `printed`. */
  function Emit(printed: seq<U32>, skipped: nat, r: Outcome): Outcome {
    match r
    case Completed(s, out) => Completed(s, printed + out)
    case Halted(f, out, at) => Halted(f, printed + out, skipped + at)
  }

  /** The evaluation loop run over `tokens` from stack `s`. */
  function Exec(tokens: seq<Token>, s: Stack): (r: Outcome)
    ensures r.Halted? ==> r.at < |tokens|
    decreases |tokens|
  {
    if tokens == [] then Completed(s, [])
    else
      match Step(s, tokens[0])
      case Err(f) => Halted(f, [], 0)
      case Ok(e) => Emit(e.printed, 1, Exec(tokens[1..], e.stack))
  }

  /** A whole program run, from the empty stack. */
  function Run(tokens: seq<Token>): Outcome {
    Exec(tokens, [])
  }

  /** What running a source text does: tokenize, then run. */
  function Interpretation(text: string): Outcome {
    Run(Tokens(text))
  }

  // ---------------------------------------------------------------------------
  // One operation

  /** An operation underflows exactly when the stack holds fewer elements than it pops. */
  lemma ApplyUnderflow(op: Op, s: Stack)
    ensures Apply(op, s) == Err(StackUnderflow(op)) <==> |s| < Arity(op)
    ensures Apply(op, s).Err? ==> Apply(op, s).error in {StackUnderflow(op), ArithmeticFault(op)}
  {
  }

  /**
   * A successful operation changes the depth by its `Delta`, leaves every
   * element beneath the ones it pops unchanged, and prints only for Print.
   */
  lemma ApplyShape(op: Op, s: Stack)
    requires Apply(op, s).Ok?
    ensures var e := Apply(op, s).value;
      && |s| >= Arity(op)
      && |e.stack| == |s| + Delta(op)
      && e.stack[..|s| - Arity(op)] == s[..|s| - Arity(op)]
      && e.printed == (if op == Print then [s[|s| - 1]] else [])
  {
  }

  /** The elements beneath those an operation pops neither matter nor change. */
  lemma ApplyFrame(op: Op, below: Stack, s: Stack)
    requires |s| >= Arity(op)
    ensures Apply(op, below + s) == Beneath(below, Apply(op, s))
  {
    var k := |s| - Arity(op);
    var t := below + s;
    assert t[|below| + k..] == s[k..];
    assert t[..|below| + k] == below + s[..k];
    match Effects(op, s[k..]) {
      case Ok(e) => assert (below + s[..k]) + e.stack == below + (s[..k] + e.stack);
      case Err(_) =>
    }
  }

  /** Add pushes the sum, and faults exactly when it exceeds 2^32 - 1. */
  lemma AddMeaning(s: Stack, y: U32, x: U32)
    ensures Apply(Add, s + [y, x]).Err? <==> y + x > MaxU32
    ensures Apply(Add, s + [y, x]).Ok? ==> Apply(Add, s + [y, x]).value.stack == s + [y + x]
  {
    assert (s + [y, x])[..|s|] == s;
  }

  /** Sub pushes y - x, and faults exactly when x exceeds y; adding x back gives y. */
  lemma SubMeaning(s: Stack, y: U32, x: U32)
    ensures Apply(Sub, s + [y, x]).Err? <==> y < x
    ensures Apply(Sub, s + [y, x]).Ok? ==>
      var d := Apply(Sub, s + [y, x]).value.stack;
      |d| == |s| + 1 && d[..|s|] == s && d[|s|] + x == y
  {
    assert (s + [y, x])[..|s|] == s;
  }

  /** Mul pushes the product, and faults exactly when it exceeds 2^32 - 1. */
  lemma MulMeaning(s: Stack, y: U32, x: U32)
    ensures Apply(Mul, s + [y, x]).Err? <==> y * x > MaxU32
    ensures Apply(Mul, s + [y, x]).Ok? ==> Apply(Mul, s + [y, x]).value.stack == s + [y * x]
  {
    assert (s + [y, x])[..|s|] == s;
  }

  /** Div pushes the floor of y / x, and faults exactly when x is zero. */
  lemma DivMeaning(s: Stack, y: U32, x: U32)
    ensures Apply(Div, s + [y, x]).Err? <==> x == 0
    ensures Apply(Div, s + [y, x]).Ok? ==>
      var d := Apply(Div, s + [y, x]).value.stack;
      |d| == |s| + 1 && d[..|s|] == s && d[|s|] * x <= y < (d[|s|] + 1) * x
  {
    assert (s + [y, x])[..|s|] == s;
    if x != 0 {
      var q := y / x;
      assert y == q * x + y % x;
    }
  }

  /** Swap leaves the stack exactly as it was. */
  lemma SwapIsIdentity(s: Stack)
    requires |s| >= 2
    ensures Apply(Swap, s) == Ok(Effect(s, []))
  {
    var k := |s| - 2;
    assert s == s[..k] + [s[k], s[k + 1]];
  }

  /** An operation on the elements `top` with `rest` beneath them. */
  lemma ApplyOn(op: Op, rest: Stack, top: Stack)
    requires |top| == Arity(op)
    ensures Apply(op, rest + top) == Beneath(rest, Effects(op, top))
  {
    assert (rest + top)[..|rest|] == rest && (rest + top)[|rest|..] == top;
  }

  /** Div on a non-zero divisor replaces the top two elements by their quotient. */
  lemma DivOn(rest: Stack, y: U32, x: U32)
    requires x != 0
    ensures y / x <= MaxU32
    ensures Apply(Div, rest + [y, x]) == Ok(Effect(rest + [y / x], []))
  {
    QuotientBound(y, x);
    ApplyOn(Div, rest, [y, x]);
  }

  /** Rotate exchanges the second and third elements, so rotating twice restores the stack. */
  lemma RotateTwice(rest: Stack, z: U32, y: U32, x: U32)
    ensures Apply(Rotate, rest + [z, y, x]) == Ok(Effect(rest + [y, z, x], []))
    ensures Apply(Rotate, rest + [y, z, x]) == Ok(Effect(rest + [z, y, x], []))
  {
    ApplyOn(Rotate, rest, [z, y, x]);
    ApplyOn(Rotate, rest, [y, z, x]);
  }

  /** Over followed by Drop exchanges the top two elements. */
  lemma OverThenDrop(rest: Stack, y: U32, x: U32)
    ensures Apply(Over, rest + [y, x]) == Ok(Effect(rest + [x, y, x], []))
    ensures Apply(Drop, rest + [x, y, x]) == Ok(Effect(rest + [x, y], []))
  {
    ApplyOn(Over, rest, [y, x]);
    ApplyOn(Drop, rest + [x, y], [x]);
    assert rest + [x, y, x] == (rest + [x, y]) + [x];
    assert (rest + [x, y]) + [] == rest + [x, y];
  }

  /** Dup followed by Drop restores the stack. */
  lemma DupThenDrop(rest: Stack, x: U32)
    ensures Apply(Dup, rest + [x]) == Ok(Effect(rest + [x, x], []))
    ensures Apply(Drop, rest + [x, x]) == Ok(Effect(rest + [x], []))
  {
    ApplyOn(Dup, rest, [x]);
    ApplyOn(Drop, rest + [x], [x]);
    assert rest + [x, x] == (rest + [x]) + [x];
    assert (rest + [x]) + [] == rest + [x];
  }

  // ---------------------------------------------------------------------------
  // One token

  /** A literal pushes its value; nothing beneath changes and nothing is printed. */
  lemma LiteralPushes(s: Stack, n: U32)
    ensures Step(s, Integer(n)).Ok?
    ensures var e := Step(s, Integer(n)).value;
      |e.stack| == |s| + 1 && e.stack[|s|] == n && e.stack[..|s|] == s && e.printed == []
  {
  }

  /** A word halts with UnknownWord exactly when its upper-case form names no operation. */
  lemma UnknownWordIff(s: Stack, w: string)
    ensures Step(s, Word(w)) == Err(UnknownWord(w)) <==> forall op: Op :: ToUpper(w) != Name(op)
  {
    LookupNone(w);
  }

  /** A word that resolves runs its operation, whatever its case. */
  lemma WordRunsOp(s: Stack, w: string, op: Op)
    requires ToUpper(w) == Name(op)
    ensures Step(s, Word(w)) == Apply(op, s)
  {
    LookupIff(w, op);
  }

  /** The ten names are words, not literals, so each reaches the dictionary. */
  lemma NamesAreWords(op: Op)
    ensures Classify(Name(op)) == Word(Name(op))
  {
  }

  // ---------------------------------------------------------------------------
  // A whole run

  /** The run from token `i` on: that token's step, then the run after it. */
  lemma ExecFrom(tokens: seq<Token>, i: nat, s: Stack)
    requires i < |tokens|
    ensures Exec(tokens[i..], s) ==
      match Step(s, tokens[i])
      case Err(f) => Halted(f, [], 0)
      case Ok(e) => Emit(e.printed, 1, Exec(tokens[i + 1..], e.stack))
  {
    assert tokens[i..][0] == tokens[i] && tokens[i..][1..] == tokens[i + 1..];
  }

  lemma EmitEmit(a: seq<U32>, i: nat, b: seq<U32>, j: nat, r: Outcome)
    ensures Emit(a, i, Emit(b, j, r)) == Emit(a + b, i + j, r)
  {
  }

  /** A run that has printed `printed` over `i` tokens goes on past a token whose step succeeds. */
  lemma ExecStepOk(tokens: seq<Token>, i: nat, s: Stack, printed: seq<U32>, e: Effect)
    requires i < |tokens| && Step(s, tokens[i]) == Ok(e)
    ensures Emit(printed, i, Exec(tokens[i..], s)) ==
      Emit(printed + e.printed, i + 1, Exec(tokens[i + 1..], e.stack))
  {
    ExecFrom(tokens, i, s);
    EmitEmit(printed, i, e.printed, 1, Exec(tokens[i + 1..], e.stack));
  }

  /** ... and halts at a token whose step faults, keeping what it printed. */
  lemma ExecStepErr(tokens: seq<Token>, i: nat, s: Stack, printed: seq<U32>, f: Fault)
    requires i < |tokens| && Step(s, tokens[i]) == Err(f)
    ensures Emit(printed, i, Exec(tokens[i..], s)) == Halted(f, printed, i)
  {
    ExecFrom(tokens, i, s);
  }

  /**
   * Running two token sequences one after the other: a halt in the first is
   * final, and otherwise the second starts from the stack the first left.
   */
  lemma {:induction false} ExecAppend(t1: seq<Token>, t2: seq<Token>, s: Stack)
    ensures Exec(t1 + t2, s) ==
      match Exec(t1, s)
      case Completed(s1, out) => Emit(out, |t1|, Exec(t2, s1))
      case Halted(_, _, _) => Exec(t1, s)
    decreases |t1|
  {
    if t1 == [] {
      assert t1 + t2 == t2;
      assert Emit([], 0, Exec(t2, s)) == Exec(t2, s);
    } else {
      var t := t1 + t2;
      assert t[0] == t1[0] && t[1..] == t1[1..] + t2;
      match Step(s, t1[0]) {
        case Err(_) =>
        case Ok(e) =>
          ExecAppend(t1[1..], t2, e.stack);
          match Exec(t1[1..], e.stack) {
            case Completed(s1, out) =>
              EmitEmit(e.printed, 1, out, |t1| - 1, Exec(t2, s1));
            case Halted(_, _, _) =>
          }
      }
    }
  }

  /**
   * A halted run stopped at the first faulting token: the tokens before it all
   * ran, printing the output the run reports, and that token faults there.
   */
  lemma {:induction false} HaltedAtFirstFault(tokens: seq<Token>, s: Stack)
    requires Exec(tokens, s).Halted?
    ensures var r := Exec(tokens, s);
      var before := Exec(tokens[..r.at], s);
      && before.Completed?
      && before.output == r.output
      && Step(before.stack, tokens[r.at]) == Err(r.fault)
    decreases |tokens|
  {
    var r := Exec(tokens, s);
    match Step(s, tokens[0]) {
      case Err(f) =>
        assert tokens[..0] == [];
      case Ok(e) =>
        var rest := tokens[1..];
        HaltedAtFirstFault(rest, e.stack);
        var r' := Exec(rest, e.stack);
        assert r.at == r'.at + 1;
        var pre := tokens[..r.at];
        assert pre[0] == tokens[0] && pre[1..] == rest[..r'.at];
        assert rest[r'.at] == tokens[r.at];
    }
  }

  /** A run that completes has run every token: each of its prefixes completes. */
  lemma CompletedRunsEveryToken(tokens: seq<Token>, s: Stack, i: nat)
    requires Exec(tokens, s).Completed?
    requires i <= |tokens|
    ensures Exec(tokens[..i], s).Completed?
  {
    ExecAppend(tokens[..i], tokens[i..], s);
    assert tokens[..i] + tokens[i..] == tokens;
  }

  /** Output is never retracted: a run's output begins with the output of each completed prefix. */
  lemma OutputExtends(tokens: seq<Token>, s: Stack, i: nat)
    requires i <= |tokens|
    requires Exec(tokens[..i], s).Completed?
    ensures Exec(tokens[..i], s).output <= Exec(tokens, s).output
  {
    ExecAppend(tokens[..i], tokens[i..], s);
    assert tokens[..i] + tokens[i..] == tokens;
  }
}
