/**
 * Whole programs run through the model, from source text to printed output:
 * example programs, stated for all values, with the results the code gives.
 */
module Programs {
  import opened Wrappers
  import opened Numerals
  import opened Lexer
  import opened Dictionary
  import opened Machine

  /** The literal tokens of a sequence of values. */
  function Pushes(vs: seq<U32>): seq<Token>
  {
    seq(|vs|, i requires 0 <= i < |vs| => Integer(vs[i]))
  }

  /** The shortest numerals of a sequence of values. */
  function NumeralsOf(vs: seq<U32>): seq<string>
  {
    seq(|vs|, i requires 0 <= i < |vs| => Decimal(vs[i]))
  }

  /** The word tokens of a sequence of atoms. */
  function WordTokens(ws: seq<string>): seq<Token>
  {
    seq(|ws|, i requires 0 <= i < |ws| => Word(ws[i]))
  }

  /** Pushes run first are pushed in order, and print nothing. */
  lemma {:induction false} ExecLiterals(vs: seq<U32>, rest: seq<Token>, s: Stack)
    ensures Exec(Pushes(vs) + rest, s) == Emit([], |vs|, Exec(rest, s + vs))
    decreases |vs|
  {
    if vs == [] {
      assert Pushes(vs) + rest == rest;
      assert s + vs == s;
    } else {
      var t := Pushes(vs) + rest;
      assert t[0] == Integer(vs[0]);
      assert t[1..] == Pushes(vs[1..]) + rest;
      ExecLiterals(vs[1..], rest, s + [vs[0]]);
      assert s + [vs[0]] + vs[1..] == s + vs;
    }
  }

  /** A word naming an operation, in any case, runs that operation... */
  lemma ExecWord(w: string, op: Op, e: Effect, rest: seq<Token>, s: Stack)
    requires ToUpper(w) == Name(op) && Apply(op, s) == Ok(e)
    ensures Exec([Word(w)] + rest, s) == Emit(e.printed, 1, Exec(rest, e.stack))
  {
    LookupIff(w, op);
    assert ([Word(w)] + rest)[1..] == rest;
  }

  /** ...and halts the program there when the operation faults. */
  lemma HaltWord(w: string, op: Op, f: Fault, rest: seq<Token>, s: Stack)
    requires ToUpper(w) == Name(op) && Apply(op, s) == Err(f)
    ensures Exec([Word(w)] + rest, s) == Halted(f, [], 0)
  {
    LookupIff(w, op);
  }

  lemma {:induction false} UpperOfName(op: Op)
    ensures ToUpper(Name(op)) == Name(op)
  {
  }

  /** Printing the top of `rest + [x]`. */
  lemma PrintOn(rest: Stack, x: U32, more: seq<Token>)
    ensures Exec([Word(".")] + more, rest + [x]) == Emit([x], 1, Exec(more, rest))
  {
    UpperOfName(Print);
    ApplyOn(Print, rest, [x]);
    assert rest + [] == rest;
    ExecWord(".", Print, Effect(rest, [x]), more, rest + [x]);
  }

  /** A numeral is an atom: it has no whitespace in it. */
  lemma NumeralIsAtom(n: U32)
    ensures IsAtom(Decimal(n))
  {
    var d := Decimal(n);
    forall i | 0 <= i < |d| ensures !IsWhitespace(d[i]) {
      assert IsDigit(d[i]);
    }
  }

  /** A numeral classifies as the literal of its value. */
  lemma NumeralIsLiteral(n: U32)
    ensures Classify(Decimal(n)) == Integer(n)
  {
    ClassifyNumeral(n, 0, false);
    assert (if false then "+" else "") + Zeros(0) + Decimal(n) == Decimal(n);
  }

  /** Each atom of such a text classifies as the matching token. */
  lemma ClassifyProgram(vs: seq<U32>, ws: seq<string>, i: nat)
    requires forall j :: 0 <= j < |ws| ==> IsAtom(ws[j]) && ParseU32(ws[j]) == None
    requires i < |vs| + |ws|
    ensures IsAtom((NumeralsOf(vs) + ws)[i])
    ensures Classify((NumeralsOf(vs) + ws)[i]) == (Pushes(vs) + WordTokens(ws))[i]
  {
    if i < |vs| {
      NumeralIsAtom(vs[i]);
      NumeralIsLiteral(vs[i]);
    } else {
      assert (NumeralsOf(vs) + ws)[i] == ws[i - |vs|];
    }
  }

  /** A text of numerals followed by words splits back into those atoms. */
  lemma ProgramAtoms(vs: seq<U32>, ws: seq<string>)
    requires forall i :: 0 <= i < |ws| ==> IsAtom(ws[i]) && ParseU32(ws[i]) == None
    ensures Atoms(Unwords(NumeralsOf(vs) + ws)) == NumeralsOf(vs) + ws
  {
    var atoms := NumeralsOf(vs) + ws;
    forall i | 0 <= i < |atoms| ensures IsAtom(atoms[i]) {
      ClassifyProgram(vs, ws, i);
    }
    AtomsUnwords(atoms);
  }

  /** A text of numerals followed by words classifies as literals followed by words. */
  lemma ProgramTokens(vs: seq<U32>, ws: seq<string>)
    requires forall i :: 0 <= i < |ws| ==> IsAtom(ws[i]) && ParseU32(ws[i]) == None
    ensures Tokens(Unwords(NumeralsOf(vs) + ws)) == Pushes(vs) + WordTokens(ws)
  {
    var atoms := NumeralsOf(vs) + ws;
    var tokens := Tokens(Unwords(atoms));
    ProgramAtoms(vs, ws);
    assert |tokens| == |atoms|;
    forall i | 0 <= i < |atoms| ensures tokens[i] == (Pushes(vs) + WordTokens(ws))[i] {
      ClassifyProgram(vs, ws, i);
    }
  }

  /** A text of numerals followed by words runs as literals followed by words. */
  lemma ProgramText(vs: seq<U32>, ws: seq<string>)
    requires forall i :: 0 <= i < |ws| ==> IsAtom(ws[i]) && ParseU32(ws[i]) == None
    ensures Interpretation(Unwords(NumeralsOf(vs) + ws)) == Run(Pushes(vs) + WordTokens(ws))
  {
    ProgramTokens(vs, ws);
  }

  /** `n` print words in a row. */
  function Dots(n: nat): seq<Token>
  {
    seq(n, _ => Word("."))
  }

  /** The elements of a stack from the top down. */
  function TopDown(s: Stack): (r: seq<U32>)
    ensures |r| == |s|
  {
    if s == [] then [] else [s[|s| - 1]] + TopDown(s[..|s| - 1])
  }

  /** `n` prints print the top `n` elements, top first, and leave the rest. */
  lemma {:induction false} PrintAll(rest: Stack, top: Stack)
    ensures Exec(Dots(|top|), rest + top) == Completed(rest, TopDown(top))
    decreases |top|
  {
    if top == [] {
      assert rest + top == rest;
    } else {
      var x := top[|top| - 1];
      var init := top[..|top| - 1];
      assert rest + top == (rest + init) + [x];
      assert Dots(|top|) == [Word(".")] + Dots(|init|);
      PrintOn(rest + init, x, Dots(|init|));
      PrintAll(rest, init);
    }
  }

  /** A word whose operation leaves the one value `r`, then a print: prints r. */
  lemma WordThenPrint(w: string, op: Op, s: Stack, r: U32)
    requires ToUpper(w) == Name(op) && Apply(op, s) == Ok(Effect([r], []))
    ensures Exec([Word(w), Word(".")], s) == Completed([], [r])
  {
    assert Exec([Word(".")], [r]) == Completed([], [r]) by {
      assert [Word(".")] == [Word(".")] + [];
      assert [r] == [] + [r];
      PrintOn([], r, []);
    }
    assert [Word(w), Word(".")] == [Word(w)] + [Word(".")];
    ExecWord(w, op, Effect([r], []), [Word(".")], s);
  }

  /** `y x w .`, where `w` leaves the one value r: prints r. */
  lemma BinaryPrints(y: U32, x: U32, w: string, op: Op, r: U32)
    requires ToUpper(w) == Name(op) && Apply(op, [y, x]) == Ok(Effect([r], []))
    ensures Run(Pushes([y, x]) + [Word(w), Word(".")]) == Completed([], [r])
  {
    ExecLiterals([y, x], [Word(w), Word(".")], []);
    assert [] + [y, x] == [y, x];
    WordThenPrint(w, op, [y, x], r);
  }

  /** `y x w .`, where `w` faults on y and x: halts at `w`, having printed nothing. */
  lemma BinaryHalts(y: U32, x: U32, w: string, op: Op, f: Fault)
    requires ToUpper(w) == Name(op) && Apply(op, [y, x]) == Err(f)
    ensures Run(Pushes([y, x]) + [Word(w), Word(".")]) == Halted(f, [], 2)
  {
    ExecLiterals([y, x], [Word(w), Word(".")], []);
    assert [] + [y, x] == [y, x];
    assert [Word(w), Word(".")] == [Word(w)] + [Word(".")];
    HaltWord(w, op, f, [Word(".")], [y, x]);
  }

  // ---------------------------------------------------------------------------
  // Program families, for every value

  /** `v .` prints v, for every u32 value v. */
  lemma PrintsLiteral(v: U32)
    ensures Run(Pushes([v]) + Dots(1)) == Completed([], [v])
  {
    ExecLiterals([v], Dots(1), []);
    PrintAll([], [v]);
    assert [] + [v] == [v];
    assert TopDown([v]) == [v];
  }

  /** `y x + .` prints y + x, or halts at `+` when the sum overflows. */
  lemma AddProgram(y: U32, x: U32)
    ensures Run(Pushes([y, x]) + [Word("+"), Word(".")]) ==
      if y + x <= MaxU32 then Completed([], [y + x]) else Halted(ArithmeticFault(Add), [], 2)
  {
    UpperOfName(Add);
    ApplyOn(Add, [], [y, x]);
    assert [] + [y, x] == [y, x];
    if y + x <= MaxU32 {
      assert [] + [y + x] == [y + x];
      BinaryPrints(y, x, "+", Add, y + x);
    } else {
      BinaryHalts(y, x, "+", Add, ArithmeticFault(Add));
    }
  }

  /** `y x - .` prints y - x, or halts at `-` when x exceeds y. */
  lemma SubProgram(y: U32, x: U32)
    ensures Run(Pushes([y, x]) + [Word("-"), Word(".")]) ==
      if x <= y then Completed([], [y - x]) else Halted(ArithmeticFault(Sub), [], 2)
  {
    UpperOfName(Sub);
    ApplyOn(Sub, [], [y, x]);
    assert [] + [y, x] == [y, x];
    if x <= y {
      assert [] + [y - x] == [y - x];
      BinaryPrints(y, x, "-", Sub, y - x);
    } else {
      BinaryHalts(y, x, "-", Sub, ArithmeticFault(Sub));
    }
  }

  /** Mul on two values: their product, or an overflow fault. */
  lemma MulOn(y: U32, x: U32, p: int)
    requires p == y * x
    ensures p <= MaxU32 ==> Apply(Mul, [y, x]) == Ok(Effect([p], []))
    ensures p > MaxU32 ==> Apply(Mul, [y, x]) == Err(ArithmeticFault(Mul))
  {
    ApplyOn(Mul, [], [y, x]);
    assert [] + [y, x] == [y, x];
    assert [] + [p] == [p];
  }

  /** `y x * .` prints y * x, or halts at `*` when the product overflows. */
  lemma MulProgram(y: U32, x: U32)
    ensures Run(Pushes([y, x]) + [Word("*"), Word(".")]) ==
      if y * x <= MaxU32 then Completed([], [y * x]) else Halted(ArithmeticFault(Mul), [], 2)
  {
    var p := y * x;
    UpperOfName(Mul);
    MulOn(y, x, p);
    if p <= MaxU32 {
      BinaryPrints(y, x, "*", Mul, p);
    } else {
      BinaryHalts(y, x, "*", Mul, ArithmeticFault(Mul));
    }
  }

  /** `y x / .` prints the quotient y / x, or halts at `/` when x is zero, printing nothing. */
  lemma DivProgram(y: U32, x: U32)
    ensures x != 0 ==> (y / x <= MaxU32 &&
      Run(Pushes([y, x]) + [Word("/"), Word(".")]) == Completed([], [y / x]))
    ensures x == 0 ==>
      Run(Pushes([y, x]) + [Word("/"), Word(".")]) == Halted(ArithmeticFault(Div), [], 2)
  {
    UpperOfName(Div);
    if x != 0 {
      var q := y / x;
      assert q <= MaxU32 && Apply(Div, [y, x]) == Ok(Effect([q], [])) by {
        DivOn([], y, x);
        assert [] + [y, x] == [y, x] && [] + [q] == [q];
      }
      BinaryPrints(y, x, "/", Div, q);
    } else {
      assert Apply(Div, [y, x]) == Err(ArithmeticFault(Div)) by {
        ApplyOn(Div, [], [y, x]);
        assert [] + [y, x] == [y, x];
      }
      BinaryHalts(y, x, "/", Div, ArithmeticFault(Div));
    }
  }

  /** `v DUP + .` prints 2v: duplicating then adding doubles, unless that overflows. */
  lemma DupAddProgram(v: U32)
    ensures Run(Pushes([v]) + [Word("DUP"), Word("+"), Word(".")]) ==
      if 2 * v <= MaxU32 then Completed([], [2 * v]) else Halted(ArithmeticFault(Add), [], 2)
  {
    var words := [Word("DUP"), Word("+"), Word(".")];
    var tail := [Word("+"), Word(".")];
    calc {
      Run(Pushes([v]) + words);
      { RunAfterPushes([v], words); }
      Emit([], 1, Exec(words, [v]));
      { assert words == [Word("DUP")] + tail;
        UpperOfName(Dup);
        ApplyOn(Dup, [], [v]);
        assert [] + [v] == [v] && [] + [v, v] == [v, v];
        ExecWord("DUP", Dup, Effect([v, v], []), tail, [v]); }
      Emit([], 1, Emit([], 1, Exec(tail, [v, v])));
      { DoubleRun(v); }
      Emit([], 1, Emit([], 1,
        if v + v <= MaxU32 then Completed([], [v + v]) else Halted(ArithmeticFault(Add), [], 0)));
      { assert v + v == 2 * v;
        if v + v <= MaxU32 {
          EmitSilent(1, [], [v + v]);
        } else {
          assert Emit([], 1, Emit([], 1, Halted(ArithmeticFault(Add), [], 0))) == Halted(ArithmeticFault(Add), [], 2);
        } }
      if 2 * v <= MaxU32 then Completed([], [2 * v]) else Halted(ArithmeticFault(Add), [], 2);
    }
  }

  /** `+ .` on two copies of v. */
  lemma DoubleRun(v: U32)
    ensures Exec([Word("+"), Word(".")], [v, v]) ==
      if v + v <= MaxU32 then Completed([], [v + v]) else Halted(ArithmeticFault(Add), [], 0)
  {
    UpperOfName(Add);
    ApplyOn(Add, [], [v, v]);
    assert [] + [v, v] == [v, v];
    if v + v <= MaxU32 {
      assert [] + [v + v] == [v + v];
      WordThenPrint("+", Add, [v, v], v + v);
    } else {
      assert [Word("+"), Word(".")] == [Word("+")] + [Word(".")];
      HaltWord("+", Add, ArithmeticFault(Add), [Word(".")], [v, v]);
    }
  }

  /** Steps that print nothing leave a completed run's output as it is. */
  lemma EmitSilent(k: nat, st: Stack, out: seq<U32>)
    ensures Emit([], k, Completed(st, out)) == Completed(st, out)
  {
    assert [] + out == out;
  }

  /** A program of literals then words runs the words on the literals' values. */
  lemma RunAfterPushes(vs: seq<U32>, words: seq<Token>)
    ensures Run(Pushes(vs) + words) == Emit([], |vs|, Exec(words, vs))
  {
    ExecLiterals(vs, words, []);
    assert [] + vs == vs;
  }

  /** A word whose operation leaves the stack `after`, then prints of all of it. */
  lemma WordThenPrintAll(w: string, op: Op, before: Stack, after: Stack)
    requires ToUpper(w) == Name(op) && Apply(op, before) == Ok(Effect(after, []))
    ensures Exec([Word(w)] + Dots(|after|), before) == Completed([], TopDown(after))
  {
    ExecWord(w, op, Effect(after, []), Dots(|after|), before);
    PrintAll([], after);
    assert [] + after == after;
    EmitSilent(1, [], TopDown(after));
  }

  /** The same after literals that push `before`. */
  lemma PushesThenPrintAll(w: string, op: Op, before: Stack, after: Stack)
    requires ToUpper(w) == Name(op) && Apply(op, before) == Ok(Effect(after, []))
    ensures Run(Pushes(before) + ([Word(w)] + Dots(|after|))) == Completed([], TopDown(after))
  {
    RunAfterPushes(before, [Word(w)] + Dots(|after|));
    WordThenPrintAll(w, op, before, after);
    EmitSilent(|before|, [], TopDown(after));
  }

  lemma TopDownTwo(a: U32, b: U32)
    ensures TopDown([a, b]) == [b, a]
  {
    assert [a, b][..1] == [a];
  }

  lemma TopDownThree(a: U32, b: U32, c: U32)
    ensures TopDown([a, b, c]) == [c, b, a]
  {
    assert [a, b, c][..2] == [a, b];
    TopDownTwo(a, b);
  }

  /** `a b SWAP . .` prints b then a: the code's SWAP leaves the stack as it was. */
  lemma SwapProgram(a: U32, b: U32)
    ensures Run(Pushes([a, b]) + ([Word("SWAP")] + Dots(2))) == Completed([], [b, a])
  {
    UpperOfName(Swap);
    ApplyOn(Swap, [], [a, b]);
    assert [] + [a, b] == [a, b];
    PushesThenPrintAll("SWAP", Swap, [a, b], [a, b]);
    TopDownTwo(a, b);
  }

  /** `a b c ROT . . .` prints c, a, b: the code's ROT exchanges the second and third elements. */
  lemma RotProgram(a: U32, b: U32, c: U32)
    ensures Run(Pushes([a, b, c]) + ([Word("ROT")] + Dots(3))) == Completed([], [c, a, b])
  {
    UpperOfName(Rotate);
    ApplyOn(Rotate, [], [a, b, c]);
    assert [] + [a, b, c] == [a, b, c] && [] + [b, a, c] == [b, a, c];
    PushesThenPrintAll("ROT", Rotate, [a, b, c], [b, a, c]);
    TopDownThree(b, a, c);
  }

  /** `a b OVER . . .` prints b, a, b: the code's OVER leaves ( a b -- b a b ). */
  lemma OverProgram(a: U32, b: U32)
    ensures Run(Pushes([a, b]) + ([Word("OVER")] + Dots(3))) == Completed([], [b, a, b])
  {
    UpperOfName(Over);
    ApplyOn(Over, [], [a, b]);
    assert [] + [a, b] == [a, b] && [] + [b, a, b] == [b, a, b];
    PushesThenPrintAll("OVER", Over, [a, b], [b, a, b]);
    TopDownThree(b, a, b);
  }

  /** A word naming an operation that takes operands halts at once on the empty stack. */
  lemma UnderflowProgram(w: string, op: Op, rest: seq<Token>)
    requires ToUpper(w) == Name(op)
    ensures Run([Word(w)] + rest) == Halted(StackUnderflow(op), [], 0)
  {
    HaltWord(w, op, StackUnderflow(op), rest, []);
  }

  /** A word the dictionary lacks halts the program there, printing nothing more. */
  lemma UnknownProgram(vs: seq<U32>, w: string, rest: seq<Token>)
    requires Lookup(w) == None
    ensures Run(Pushes(vs) + [Word(w)] + rest) == Halted(UnknownWord(w), [], |vs|)
  {
    ExecLiterals(vs, [Word(w)] + rest, []);
    assert Pushes(vs) + [Word(w)] + rest == Pushes(vs) + ([Word(w)] + rest);
  }

  /** Joining atoms one at a time from the front. */
  lemma UnwordsCons(a: string, rest: seq<string>)
    requires rest != []
    ensures Unwords([a] + rest) == a + " " + Unwords(rest)
  {
    assert ([a] + rest)[1..] == rest;
  }

  // ---------------------------------------------------------------------------
  // The example programs, as source text

  /** The text "y x + ." prints y + x, or halts at `+` when the sum overflows. */
  lemma AddText(y: U32, x: U32)
    ensures Interpretation(Unwords(NumeralsOf([y, x]) + ["+", "."])) ==
      if y + x <= MaxU32 then Completed([], [y + x]) else Halted(ArithmeticFault(Add), [], 2)
  {
    ProgramText([y, x], ["+", "."]);
    assert WordTokens(["+", "."]) == [Word("+"), Word(".")];
    AddProgram(y, x);
  }

  /** The text "y x - ." prints y - x, or halts at `-` when x exceeds y. */
  lemma SubText(y: U32, x: U32)
    ensures Interpretation(Unwords(NumeralsOf([y, x]) + ["-", "."])) ==
      if x <= y then Completed([], [y - x]) else Halted(ArithmeticFault(Sub), [], 2)
  {
    ProgramText([y, x], ["-", "."]);
    assert WordTokens(["-", "."]) == [Word("-"), Word(".")];
    SubProgram(y, x);
  }

  /** The text "y x * ." prints y * x, or halts at `*` when the product overflows. */
  lemma MulText(y: U32, x: U32)
    ensures Interpretation(Unwords(NumeralsOf([y, x]) + ["*", "."])) ==
      if y * x <= MaxU32 then Completed([], [y * x]) else Halted(ArithmeticFault(Mul), [], 2)
  {
    ProgramText([y, x], ["*", "."]);
    assert WordTokens(["*", "."]) == [Word("*"), Word(".")];
    MulProgram(y, x);
  }

  /** The text "v DUP + ." prints 2v, unless that overflows. */
  lemma DupAddText(v: U32)
    ensures Interpretation(Unwords(NumeralsOf([v]) + ["DUP", "+", "."])) ==
      if 2 * v <= MaxU32 then Completed([], [2 * v]) else Halted(ArithmeticFault(Add), [], 2)
  {
    ProgramText([v], ["DUP", "+", "."]);
    assert WordTokens(["DUP", "+", "."]) == [Word("DUP"), Word("+"), Word(".")];
    DupAddProgram(v);
  }

  /** The text "a b SWAP . ." prints b then a: SWAP leaves the stack as it was. */
  lemma SwapText(a: U32, b: U32)
    ensures Interpretation(Unwords(NumeralsOf([a, b]) + ["SWAP", ".", "."])) == Completed([], [b, a])
  {
    ProgramText([a, b], ["SWAP", ".", "."]);
    assert WordTokens(["SWAP", ".", "."]) == [Word("SWAP")] + Dots(2);
    SwapProgram(a, b);
  }

  /** The text "a b c ROT . . ." prints c, a, b: ROT exchanges the two values under the top. */
  lemma RotText(a: U32, b: U32, c: U32)
    ensures Interpretation(Unwords(NumeralsOf([a, b, c]) + ["ROT", ".", ".", "."])) == Completed([], [c, a, b])
  {
    ProgramText([a, b, c], ["ROT", ".", ".", "."]);
    assert WordTokens(["ROT", ".", ".", "."]) == [Word("ROT")] + Dots(3);
    RotProgram(a, b, c);
  }

  /** The text "a b OVER . . ." prints b, a, b: OVER copies the top beneath the second. */
  lemma OverText(a: U32, b: U32)
    ensures Interpretation(Unwords(NumeralsOf([a, b]) + ["OVER", ".", ".", "."])) == Completed([], [b, a, b])
  {
    ProgramText([a, b], ["OVER", ".", ".", "."]);
    assert WordTokens(["OVER", ".", ".", "."]) == [Word("OVER")] + Dots(3);
    OverProgram(a, b);
  }

  /** The text "y x / ." prints y / x, or halts at `/` with nothing printed when x is zero. */
  lemma DivText(y: U32, x: U32)
    ensures x != 0 ==> Interpretation(Unwords(NumeralsOf([y, x]) + ["/", "."])) == Completed([], [y / x])
    ensures x == 0 ==> Interpretation(Unwords(NumeralsOf([y, x]) + ["/", "."])) == Halted(ArithmeticFault(Div), [], 2)
  {
    var program := Pushes([y, x]) + [Word("/"), Word(".")];
    assert Interpretation(Unwords(NumeralsOf([y, x]) + ["/", "."])) == Run(program) by {
      ProgramText([y, x], ["/", "."]);
      assert WordTokens(["/", "."]) == [Word("/"), Word(".")];
    }
    DivProgram(y, x);
  }

  /** "1 2 SWAP . ." prints 2 then 1. */
  lemma SwapExample()
    ensures Interpretation(Unwords(["1", "2", "SWAP", ".", "."])) == Completed([], [2, 1])
  {
    assert NumeralsOf([1, 2]) + ["SWAP", ".", "."] == ["1", "2", "SWAP", ".", "."];
    SwapText(1, 2);
  }

  /** "1 2 3 ROT . . ." prints 3, 1, 2. */
  lemma RotExample()
    ensures Interpretation(Unwords(["1", "2", "3", "ROT", ".", ".", "."])) == Completed([], [3, 1, 2])
  {
    assert NumeralsOf([1, 2, 3]) + ["ROT", ".", ".", "."] == ["1", "2", "3", "ROT", ".", ".", "."];
    RotText(1, 2, 3);
  }

  /** "1 2 OVER . . ." prints 2, 1, 2. */
  lemma OverExample()
    ensures Interpretation(Unwords(["1", "2", "OVER", ".", ".", "."])) == Completed([], [2, 1, 2])
  {
    assert NumeralsOf([1, 2]) + ["OVER", ".", ".", "."] == ["1", "2", "OVER", ".", ".", "."];
    OverText(1, 2);
  }

  /** "5 0 / ." halts at the division, having printed nothing. */
  lemma DivisionByZeroExample()
    ensures Interpretation(Unwords(["5", "0", "/", "."])) == Halted(ArithmeticFault(Div), [], 2)
  {
    assert NumeralsOf([5, 0]) + ["/", "."] == ["5", "0", "/", "."];
    DivText(5, 0);
  }

  /** "FOO" halts at once: no operation is named FOO. */
  lemma UnknownWordExample()
    ensures Interpretation("FOO") == Halted(UnknownWord("FOO"), [], 0)
  {
    assert Unwords(NumeralsOf([]) + ["FOO"]) == "FOO";
    ProgramText([], ["FOO"]);
    assert Lookup("FOO") == None by {
      assert ToUpper("FOO") == "FOO" by { UpperCaseMeaning("FOO"); }
    }
    UnknownProgram([], "FOO", []);
    assert Pushes([]) + [Word("FOO")] + [] == Pushes([]) + WordTokens(["FOO"]);
  }

  /** "+" on the empty stack halts at once with an underflow. */
  lemma UnderflowExample()
    ensures Interpretation("+") == Halted(StackUnderflow(Add), [], 0)
  {
    assert Unwords(NumeralsOf([]) + ["+"]) == "+";
    ProgramText([], ["+"]);
    UpperOfName(Add);
    UnderflowProgram("+", Add, []);
    assert [Word("+")] + [] == Pushes([]) + WordTokens(["+"]);
  }

  /** The text "v ." prints v, for every u32 value v. */
  lemma PrintsLiteralText(v: U32)
    ensures Interpretation(Decimal(v) + " .") == Completed([], [v])
  {
    assert Unwords(NumeralsOf([v]) + ["."]) == Decimal(v) + " ." by {
      assert NumeralsOf([v]) + ["."] == [Decimal(v)] + ["."];
      UnwordsCons(Decimal(v), ["."]);
    }
    ProgramText([v], ["."]);
    assert WordTokens(["."]) == Dots(1);
    PrintsLiteral(v);
  }
}
