/**
 * The evaluation loop of `main` (src/main.rs:80-142) as it is written: an
 * evaluator object owns the stack and the printed output, runs each operation
 * as the source's own sequence of pops and pushes, and is proved to compute
 * what `Machine.Exec` says. `Interpret` is `main` after the file is read
 * (src/main.rs:53-142).
 */
module Interpreter {
  import opened Wrappers
  import opened Numerals
  import opened Lexer
  import opened Dictionary
  import opened Machine

  class Evaluator {
    /** `stack: Vec<u32>`, top last. */
    var stack: Stack
    /** The values printed so far, in order. */
    var output: seq<U32>

    constructor ()
      ensures stack == [] && output == []
    {
      stack := [];
      output := [];
    }

    /** `stack.push(v)`. */
    method Push(v: U32)
      modifies this
      ensures stack == old(stack) + [v] && output == old(output)
    {
      stack := stack + [v];
    }

    /** `stack.pop().unwrap()` on a stack known to be non-empty. */
    method Pop() returns (v: U32)
      requires |stack| > 0
      modifies this
      ensures old(stack) == stack + [v] && output == old(output)
    {
      v := stack[|stack| - 1];
      stack := stack[..|stack| - 1];
    }

    /** Print (src/main.rs:88): pop the top and print it. */
    method PrintTop() returns (x: U32)
      requires |stack| >= 1
      modifies this
      ensures Apply(Print, old(stack)) == Ok(Effect(stack, [x]))
      ensures output == old(output) + [x]
    {
      x := Pop();
      ApplyOn(Print, stack, [x]);
      assert stack + [] == stack;
      output := output + [x];
    }

    /** Add (src/main.rs:89-93): pop x, pop y, push x + y; a fault is found after the pops. */
    method AddTop() returns (fault: Option<Fault>)
      requires |stack| >= 2
      modifies this
      ensures output == old(output)
      ensures match Apply(Add, old(stack))
        case Ok(e) => fault == None && stack == e.stack
        case Err(f) => fault == Some(f)
    {
      var x := Pop();
      var y := Pop();
      assert old(stack) == stack + [y, x];
      ApplyOn(Add, stack, [y, x]);
      if x + y > MaxU32 {
        return Some(ArithmeticFault(Add));
      }
      Push(x + y);
      fault := None;
    }

    /** Sub (src/main.rs:94-98): pop x, pop y, push y - x; a fault is found after the pops. */
    method SubTop() returns (fault: Option<Fault>)
      requires |stack| >= 2
      modifies this
      ensures output == old(output)
      ensures match Apply(Sub, old(stack))
        case Ok(e) => fault == None && stack == e.stack
        case Err(f) => fault == Some(f)
    {
      var x := Pop();
      var y := Pop();
      assert old(stack) == stack + [y, x];
      ApplyOn(Sub, stack, [y, x]);
      if y < x {
        return Some(ArithmeticFault(Sub));
      }
      Push(y - x);
      fault := None;
    }

    /** Mul (src/main.rs:99-103): pop x, pop y, push x * y; a fault is found after the pops. */
    method MulTop() returns (fault: Option<Fault>)
      requires |stack| >= 2
      modifies this
      ensures output == old(output)
      ensures match Apply(Mul, old(stack))
        case Ok(e) => fault == None && stack == e.stack
        case Err(f) => fault == Some(f)
    {
      var x := Pop();
      var y := Pop();
      assert old(stack) == stack + [y, x];
      ApplyOn(Mul, stack, [y, x]);
      if x * y > MaxU32 {
        return Some(ArithmeticFault(Mul));
      }
      Push(x * y);
      fault := None;
    }

    /** Div (src/main.rs:104-108): pop x, pop y, push y / x; a fault is found after the pops. */
    method DivTop() returns (fault: Option<Fault>)
      requires |stack| >= 2
      modifies this
      ensures output == old(output)
      ensures match Apply(Div, old(stack))
        case Ok(e) => fault == None && stack == e.stack
        case Err(f) => fault == Some(f)
    {
      var x := Pop();
      var y := Pop();
      assert old(stack) == stack + [y, x];
      if x == 0 {
        ApplyOn(Div, stack, [y, x]);
        return Some(ArithmeticFault(Div));
      }
      DivOn(stack, y, x);
      Push(y / x);
      fault := None;
    }

    /** Dup (src/main.rs:109-113): pop x, push x, push x. */
    method DupTop()
      requires |stack| >= 1
      modifies this
      ensures output == old(output)
      ensures Apply(Dup, old(stack)) == Ok(Effect(stack, []))
    {
      var x := Pop();
      ApplyOn(Dup, stack, [x]);
      ghost var below := stack;
      Push(x);
      Push(x);
      assert stack == below + [x, x];
    }

    /** Rotate (src/main.rs:114-121): pop x, y, z, push y, z, x. */
    method RotateTop()
      requires |stack| >= 3
      modifies this
      ensures output == old(output)
      ensures Apply(Rotate, old(stack)) == Ok(Effect(stack, []))
    {
      var x := Pop();
      var y := Pop();
      var z := Pop();
      assert old(stack) == stack + [z, y, x];
      ApplyOn(Rotate, stack, [z, y, x]);
      ghost var below := stack;
      Push(y);
      Push(z);
      Push(x);
      assert stack == below + [y, z, x];
    }

    /** Over (src/main.rs:122-128): pop x, y, push x, y, x. */
    method OverTop()
      requires |stack| >= 2
      modifies this
      ensures output == old(output)
      ensures Apply(Over, old(stack)) == Ok(Effect(stack, []))
    {
      var x := Pop();
      var y := Pop();
      assert old(stack) == stack + [y, x];
      ApplyOn(Over, stack, [y, x]);
      ghost var below := stack;
      Push(x);
      Push(y);
      Push(x);
      assert stack == below + [x, y, x];
    }

    /** Swap (src/main.rs:129-134): pop x, y, push y, x. */
    method SwapTop()
      requires |stack| >= 2
      modifies this
      ensures output == old(output)
      ensures Apply(Swap, old(stack)) == Ok(Effect(stack, []))
    {
      var x := Pop();
      var y := Pop();
      assert old(stack) == stack + [y, x];
      ApplyOn(Swap, stack, [y, x]);
      ghost var below := stack;
      Push(y);
      Push(x);
      assert stack == below + [y, x];
    }

    /** Drop (src/main.rs:135-137): pop and discard. */
    method DropTop()
      requires |stack| >= 1
      modifies this
      ensures output == old(output)
      ensures Apply(Drop, old(stack)) == Ok(Effect(stack, []))
    {
      var x := Pop();
      ApplyOn(Drop, stack, [x]);
      assert stack + [] == stack;
    }

    /**
     * One operation (src/main.rs:87-139). Depth is checked before the first
     * pop; a halted run discards the stack, so this cannot be told apart from
     * the source's panic after a partial pop.
     */
    method Execute(op: Op) returns (fault: Option<Fault>)
      modifies this
      ensures match Apply(op, old(stack))
        case Ok(e) => fault == None && stack == e.stack && output == old(output) + e.printed
        case Err(f) => fault == Some(f) && output == old(output)
    {
      if |stack| < Arity(op) {
        return Some(StackUnderflow(op));
      }
      fault := None;
      match op {
        case Print => var _ := PrintTop();
        case Add => fault := AddTop();
        case Sub => fault := SubTop();
        case Mul => fault := MulTop();
        case Div => fault := DivTop();
        case Dup => DupTop();
        case Rotate => RotateTop();
        case Over => OverTop();
        case Swap => SwapTop();
        case Drop => DropTop();
      }
    }

    /** One iteration of the evaluation loop (src/main.rs:83-139): the token's step. */
    method Advance(t: Token) returns (fault: Option<Fault>)
      modifies this
      ensures match Step(old(stack), t)
        case Ok(e) => fault == None && stack == e.stack && output == old(output) + e.printed
        case Err(f) => fault == Some(f) && output == old(output)
    {
      match t {
        case Integer(n) =>
          Push(n);
          fault := None;
        case Word(w) =>
          var op := Lookup(w);
          if op.None? {
            return Some(UnknownWord(w));
          }
          fault := Execute(op.value);
      }
    }

    /**
     * The evaluation loop (src/main.rs:82-142): tokens in order, a literal
     * pushed, a word looked up and its operation run; the first fault ends it.
     */
    method Run(tokens: seq<Token>) returns (fault: Option<Fault>)
      modifies this
      ensures match Exec(tokens, old(stack))
        case Completed(s, out) => fault == None && stack == s && output == old(output) + out
        case Halted(f, out, _) => fault == Some(f) && output == old(output) + out
    {
      ghost var printed: seq<U32> := [];
      fault := None;
      for i := 0 to |tokens|
        invariant fault == None
        invariant output == old(output) + printed
        invariant Exec(tokens, old(stack)) == Emit(printed, i, Exec(tokens[i..], stack))
      {
        ghost var before := stack;
        ghost var step := Step(before, tokens[i]);
        fault := Advance(tokens[i]);
        if fault.Some? {
          ExecStepErr(tokens, i, before, printed, step.error);
          return;
        }
        ExecStepOk(tokens, i, before, printed, step.value);
        printed := printed + step.value.printed;
      }
      assert tokens[|tokens|..] == [];
      assert Exec(tokens, old(stack)) == Completed(stack, printed);
    }
  }

  /** `main` from the source text on (src/main.rs:53-142): split, classify, evaluate. */
  method Interpret(text: string) returns (output: seq<U32>, fault: Option<Fault>)
    ensures match Interpretation(text)
      case Completed(_, out) => fault == None && output == out
      case Halted(f, out, _) => fault == Some(f) && output == out
  {
    var atoms := Atoms(text);
    var tokens := Tokenize(atoms);
    assert tokens == Tokens(text);
    var evaluator := new Evaluator();
    fault := evaluator.Run(tokens);
    output := evaluator.output;
  }
}
