# frankfurter: a tiny Forth interpreter, modelled in Dafny

`src/main.rs` reads a program text and evaluates it as Forth. The text is
split on whitespace. Each atom that `u32::from_str` accepts becomes a
`Token::Integer`; every other atom becomes a `Token::Word` with its text
unchanged. A fixed `HashMap` binds ten upper-case names to the operations of
the enum `Op`. Then one pass over the tokens mutates a `Vec<u32>` stack: a
literal is pushed, and a word is upper-cased, looked up, and its operation
runs as the source's own sequence of `pop().unwrap()` and `push` calls.

The model has seven modules, one per file:

- `Wrappers` (wrappers.dfy): `Option` and `Result`.
- `Numerals` (numerals.dfy): decimal numerals, and `ParseU32`, which is
  `u32::from_str`. It accepts an optional `+`, at least one digit, and a value
  of at most 2^32 - 1.
- `Lexer` (lexer.dfy): `Atoms`, which is `split_whitespace` over the Unicode
  White_Space characters (exactly `char::is_whitespace`). It also holds the
  `Token` datatype, `Classify`, and the classification loop `Tokenize`.
- `Dictionary` (dictionary.dfy): the `Op` enum, the ten entries, upper-casing,
  and `Lookup`.
- `Machine` (machine.dfy): the evaluator's meaning as pure functions:
  - `Effects`/`Apply`: one operation;
  - `Step`: one token;
  - `Exec`/`Run`: the loop, which halts at the first fault;
  - `Interpretation`: text in, outcome out.

  The three ways the source panics become typed faults:
  - `UnknownWord`: `dict[...]` on a missing key;
  - `StackUnderflow`: `unwrap()` on an empty `pop()`;
  - `ArithmeticFault`: u32 overflow, a negative difference, or division by zero.
- `Interpreter` (evaluator.dfy): the imperative evaluator.
  - The class `Evaluator` has the fields `stack` and `output`. One method per
    operation pops and pushes in the source's order.
  - `Run` is the evaluation loop. Its loop invariant ties the object's state to
    `Machine.Exec`.
  - `Interpret` is `main` after the file has been read.
- `Programs` (programs.dfy): whole programs as token sequences and as source
  text. It connects the text to the run (`ProgramText`) and proves the
  behaviour of each family of example programs, for all values.

The stack effects are those the code performs, with x on top and y beneath it:
- Rotate turns `z y x` into `y z x`: it exchanges the second and third
  elements and leaves the top in place.
- Over turns `y x` into `x y x`.
- Swap pops x, then y, pushes y, then x, so it leaves the stack unchanged.
- Sub and Div compute y - x and y / x.

These are not the standard Forth words. In standard Forth, SWAP is
`( a b -- b a )`, ROT is `( a b c -- b c a )` and OVER is `( a b -- a b a )`.
There `1 2 SWAP . .` prints 1 then 2, `1 2 3 ROT . . .` prints 1, 3, 2, and
`1 2 OVER . . .` prints 1, 2, 1. This code prints 2, 1, then 3, 1, 2, then
2, 1, 2. The model follows the code: `Programs.SwapExample`,
`Programs.RotExample` and `Programs.OverExample` prove the code's outputs.
`u32::from_str` accepts one leading `+`, so `+5` is the literal 5; the model
does the same (`Lexer.ClassifyNumeral` with `plus`).

## Model

| member | source | states |
|---|---|---|
| Numerals.ParseU32 | src/main.rs:71 | `u32::from_str`: an optional '+', then one or more digits, whose value is at most 2^32 - 1; what it accepts and refuses is stated by ParseU32Accepted, ParseU32Numeral and ParseU32Overflow |
| Numerals.ParseU32Accepted | src/main.rs:71-74 | whatever `u32::from_str` accepts is an optional '+' and at least one digit, and its value's numeral is that text without sign and leading zeros |
| Numerals.ParseU32Numeral | src/main.rs:71-74 | conversely, an optional '+', any number of zeros and the numeral of any u32 value parse to that value |
| Numerals.ParseU32Overflow | src/main.rs:71-76 | a numeral above 2^32 - 1 is refused, with or without a '+' |
| Numerals.Decimal | src/main.rs:71 | the numeral of n is canonical (no leading zero) and denotes n |
| Lexer.RunLength | src/main.rs:53 | an atom extends up to, and not including, the first whitespace character |
| Lexer.Atoms | src/main.rs:53 | every piece `split_whitespace` yields is non-empty and free of whitespace |
| Lexer.AtomsConcat | src/main.rs:53 | the atoms, joined, are exactly the text's non-whitespace characters in order |
| Lexer.AtomsSplit | src/main.rs:53 | a whitespace character separates the atoms before it from those after it |
| Lexer.AtomsOfAtom | src/main.rs:53 | a text with no whitespace is one atom |
| Lexer.AtomsUnwords | src/main.rs:53 | atoms joined by single spaces split back into the same atoms |
| Lexer.Classify | src/main.rs:71-77 | an atom becomes `Integer(n)` when `u32::from_str` gives n, and otherwise `Word` with its text; both directions are stated by ClassifyNumeral, ClassifyInteger and ClassifyWord |
| Lexer.ClassifyNumeral | src/main.rs:71-74 | an optional '+', zeros and the numeral of n become `Integer(n)` |
| Lexer.ClassifyInteger | src/main.rs:71-74 | an atom classified as a literal is an optional '+' and digits whose value it carries |
| Lexer.ClassifyWord | src/main.rs:75-77 | an atom classified as a word keeps its text, case included, and is one `u32::from_str` refuses |
| Lexer.Tokenize | src/main.rs:70-78 | the loop pushes exactly one token per atom, in order, each the classification of its atom |
| Dictionary.NamesAreKeys | src/main.rs:58-67 | every operation is entered under its name |
| Dictionary.KeysAreNames | src/main.rs:58-67 | every key of the table is the name of the operation it is bound to |
| Dictionary.EntriesAreNames | src/main.rs:56-67 | the table `Entries` that the ten inserts build is exactly the ten name-to-operation bindings |
| Dictionary.NameInjective | src/main.rs:58-67 | no two operations share a name |
| Dictionary.UpperCaseMeaning | src/main.rs:86 | the key has no ASCII lower-case letter left: each becomes its capital, long s becomes 'S', and every other character is kept (character by character, see "## Left out") |
| Dictionary.Lookup | src/main.rs:86 | `dict[&word.to_uppercase()]`, with a missing key as `None` instead of a panic; its meaning is stated by LookupIff, LookupNone and LookupIgnoresCase |
| Dictionary.LookupIff | src/main.rs:86 | a word resolves to an operation if and only if its upper-case form is that operation's name |
| Dictionary.LookupNone | src/main.rs:86 | a word misses the table if and only if its upper-case form is no operation's name |
| Dictionary.UpperOfLower | src/main.rs:86 | upper-casing a lower-cased word gives the word's upper-case form |
| Dictionary.UpperIdempotent | src/main.rs:86 | upper-casing twice is upper-casing once |
| Dictionary.LookupIgnoresCase | src/main.rs:86 | a word, its upper-case and its lower-case form resolve alike (`dup`, `Dup`, `DUP`) |
| Machine.Effects | src/main.rs:88-137 | each operation's pops and pushes on exactly the elements it pops, with x on top and y beneath; that it fails only by its own arithmetic fault, changes the depth by Delta and prints only for Print is stated by ApplyUnderflow and ApplyShape, its arithmetic by the Meaning lemmas |
| Machine.Apply | src/main.rs:88-137 | an operation on the whole stack, an underflow when it is too shallow; stated by ApplyUnderflow, ApplyShape, ApplyFrame and the Meaning lemmas |
| Machine.Step | src/main.rs:83-140 | one token: a literal is pushed, a word runs the operation its upper-case form names, or halts with UnknownWord; stated by LiteralPushes, UnknownWordIff and WordRunsOp |
| Machine.Exec | src/main.rs:82-142 | a halted run stops at one of the tokens it was given |
| Machine.ApplyUnderflow | src/main.rs:88-137 | an operation underflows if and only if the stack holds fewer elements than it pops (1, 2 or 3), and it can fail only by underflow or by its own arithmetic fault |
| Machine.ApplyShape | src/main.rs:88-137 | a successful operation changes the depth by +1 (Dup, Over), 0 (Rotate, Swap) or -1 (the rest), keeps every element beneath those it pops, and prints only for Print, which prints the top |
| Machine.ApplyFrame | src/main.rs:88-137 | the elements beneath those an operation pops neither affect its result nor change |
| Machine.AddMeaning | src/main.rs:89-93 | Add replaces y x by y + x and faults exactly when the sum exceeds 2^32 - 1 |
| Machine.SubMeaning | src/main.rs:94-98 | Sub replaces y x by d with d + x == y, and faults exactly when x > y |
| Machine.MulMeaning | src/main.rs:99-103 | Mul replaces y x by y * x and faults exactly when the product exceeds 2^32 - 1 |
| Machine.DivMeaning | src/main.rs:104-108 | Div replaces y x by q with q * x <= y < (q + 1) * x, and faults exactly when x is zero |
| Machine.DivOn | src/main.rs:104-108 | a quotient by a non-zero divisor fits in a u32, and Div pushes it |
| Machine.ApplyOn | src/main.rs:88-137 | an operation acts on the elements it pops, with the rest of the stack beneath |
| Machine.SwapIsIdentity | src/main.rs:129-134 | Swap leaves the stack exactly as it was |
| Machine.RotateTwice | src/main.rs:114-121 | Rotate turns z y x into y z x, so rotating twice restores the stack |
| Machine.OverThenDrop | src/main.rs:122-128 | Over turns y x into x y x, and Drop after it leaves x y: the two top elements exchanged |
| Machine.DupThenDrop | src/main.rs:109-113 | Dup turns x into x x, and Drop after it restores the stack |
| Machine.LiteralPushes | src/main.rs:84 | a literal adds its value on top, keeps everything beneath it, and prints nothing |
| Machine.UnknownWordIff | src/main.rs:86 | a word halts the run with UnknownWord if and only if its upper-case form is no operation's name |
| Machine.WordRunsOp | src/main.rs:85-87 | a word whose upper-case form names an operation runs that operation |
| Machine.NamesAreWords | src/main.rs:58-77 | each of the ten names is classified as a word, so it reaches the dictionary |
| Machine.ExecFrom | src/main.rs:82-142 | the run from token i is that token's step, then the run after it, unless the step faults |
| Machine.EmitEmit | src/main.rs:88 | output printed in two stretches is their concatenation |
| Machine.ExecStepOk | src/main.rs:82-142 | after a token whose step succeeds, the run goes on with that step's stack, and its output so far grows by what the step printed |
| Machine.ExecStepErr | src/main.rs:82-142 | at a token whose step faults, the run halts there with the output printed so far |
| Machine.ExecAppend | src/main.rs:82-142 | running two token sequences in a row: a halt in the first is final, and otherwise the second starts from the stack the first left |
| Machine.HaltedAtFirstFault | src/main.rs:82-142 | a halted run stopped at the first faulting token: every earlier token ran, and the output is what they printed |
| Machine.CompletedRunsEveryToken | src/main.rs:82-142 | a run without faults runs every token |
| Machine.OutputExtends | src/main.rs:82-142 | output is never retracted: the output of a completed prefix begins the output of the whole run |
| Machine.Run | src/main.rs:80-142 | the loop from the empty stack (`Vec::new()`); stated by ExecAppend, HaltedAtFirstFault, CompletedRunsEveryToken and OutputExtends |
| Machine.Interpretation | src/main.rs:53-142 | a text's outcome is the run of its tokens; stated for whole programs by Programs.ProgramText and the text lemmas |
| Interpreter.Evaluator.constructor | src/main.rs:80 | the stack starts empty and nothing has been printed |
| Interpreter.Evaluator.Push | src/main.rs:84 | `push` adds one element on top and changes nothing else |
| Interpreter.Evaluator.Pop | src/main.rs:90 | `pop` on a non-empty stack removes and returns the top |
| Interpreter.Evaluator.PrintTop | src/main.rs:88 | Print pops the top and appends it to the output, as `Machine.Apply` says |
| Interpreter.Evaluator.AddTop | src/main.rs:89-93 | the pops and push of Add compute `Machine.Apply(Add, ..)`, including its overflow fault |
| Interpreter.Evaluator.SubTop | src/main.rs:94-98 | the pops and push of Sub compute `Machine.Apply(Sub, ..)`, including its fault when x > y |
| Interpreter.Evaluator.MulTop | src/main.rs:99-103 | the pops and push of Mul compute `Machine.Apply(Mul, ..)`, including its overflow fault |
| Interpreter.Evaluator.DivTop | src/main.rs:104-108 | the pops and push of Div compute `Machine.Apply(Div, ..)`, including division by zero |
| Interpreter.Evaluator.DupTop | src/main.rs:109-113 | the pop and two pushes of Dup compute `Machine.Apply(Dup, ..)` |
| Interpreter.Evaluator.RotateTop | src/main.rs:114-121 | the three pops and three pushes of Rotate compute `Machine.Apply(Rotate, ..)` |
| Interpreter.Evaluator.OverTop | src/main.rs:122-128 | the two pops and three pushes of Over compute `Machine.Apply(Over, ..)` |
| Interpreter.Evaluator.SwapTop | src/main.rs:129-134 | the two pops and two pushes of Swap compute `Machine.Apply(Swap, ..)` |
| Interpreter.Evaluator.DropTop | src/main.rs:135-137 | the pop of Drop computes `Machine.Apply(Drop, ..)` |
| Interpreter.Evaluator.Execute | src/main.rs:87-139 | running an operation leaves the stack and output that `Machine.Apply` gives, or reports its fault with the output unchanged |
| Interpreter.Evaluator.Advance | src/main.rs:83-140 | one token pushes a literal or runs the operation its word names, as `Machine.Step` says, or reports UnknownWord |
| Interpreter.Evaluator.Run | src/main.rs:82-142 | the loop ends with the stack and output of `Machine.Exec`, or stops at the first fault with the output printed up to it |
| Interpreter.Interpret | src/main.rs:53-142 | splitting, classifying and evaluating a text prints what `Machine.Interpretation` says and reports its fault |
| Programs.ExecLiterals | src/main.rs:84 | a run of literals pushes their values in order and prints nothing |
| Programs.ExecWord | src/main.rs:85-139 | a word that names an operation which succeeds runs that operation and goes on |
| Programs.HaltWord | src/main.rs:85-139 | a word that names an operation which faults halts the run at once |
| Programs.PrintOn | src/main.rs:88 | `.` prints the top and goes on with the stack beneath it |
| Programs.NumeralIsAtom | src/main.rs:53 | the numeral of a value contains no whitespace |
| Programs.NumeralIsLiteral | src/main.rs:71-74 | the numeral of a value is classified as that value |
| Programs.ClassifyProgram | src/main.rs:70-78 | each numeral of a program is classified as its value, and each word as itself |
| Programs.ProgramAtoms | src/main.rs:53 | a program written with single spaces splits into its numerals and words |
| Programs.ProgramTokens | src/main.rs:53-78 | a program text of numerals followed by words becomes those literals followed by those words |
| Programs.ProgramText | src/main.rs:53-142 | interpreting such a text is running that token sequence |
| Programs.PrintAll | src/main.rs:88 | one `.` per element prints a stack top first and leaves what is beneath |
| Programs.WordThenPrint | src/main.rs:85-139 | an operation that leaves one value, then `.`, prints that value and empties the stack |
| Programs.BinaryPrints | src/main.rs:82-142 | `y x <op> .` prints the single result of a binary operation |
| Programs.BinaryHalts | src/main.rs:82-142 | `y x <op> .` halts at the operation, with nothing printed, when it faults |
| Programs.PrintsLiteral | src/main.rs:84-88 | `v .` prints v |
| Programs.AddProgram | src/main.rs:89-93 | `y x + .` prints y + x, or halts at `+` when the sum overflows |
| Programs.SubProgram | src/main.rs:94-98 | `y x - .` prints y - x, or halts at `-` when x > y |
| Programs.MulOn | src/main.rs:99-103 | Mul on y x is their product, or a fault when it overflows |
| Programs.MulProgram | src/main.rs:99-103 | `y x * .` prints y * x, or halts at `*` when the product overflows |
| Programs.DivProgram | src/main.rs:104-108 | `y x / .` prints y / x, or halts at `/` with nothing printed when x is zero |
| Programs.DoubleRun | src/main.rs:89-93 | `+ .` on two copies of v prints v + v, or halts on overflow |
| Programs.DupAddProgram | src/main.rs:109-113 | `v DUP + .` prints 2v, or halts at `+` on overflow |
| Programs.RunAfterPushes | src/main.rs:84 | a program that starts with literals runs the rest on their values |
| Programs.WordThenPrintAll | src/main.rs:85-139 | an operation, then one `.` per element, prints the new stack top first |
| Programs.PushesThenPrintAll | src/main.rs:82-142 | literals, an operation, then one `.` per element, print the stack the operation left, top first |
| Programs.SwapProgram | src/main.rs:129-134 | `a b SWAP . .` prints b, then a |
| Programs.RotProgram | src/main.rs:114-121 | `a b c ROT . . .` prints c, a, b |
| Programs.OverProgram | src/main.rs:122-128 | `a b OVER . . .` prints b, a, b |
| Programs.UnderflowProgram | src/main.rs:88-137 | a program that starts with an operation halts at once with StackUnderflow |
| Programs.UnknownProgram | src/main.rs:86 | an unknown word after some literals halts there, with nothing printed and nothing after it run |
| Programs.AddText | src/main.rs:53-142 | the text "y x + ." prints y + x, or halts on overflow |
| Programs.SubText | src/main.rs:53-142 | the text "y x - ." prints y - x, or halts when x > y |
| Programs.MulText | src/main.rs:53-142 | the text "y x * ." prints y * x, or halts on overflow |
| Programs.DivText | src/main.rs:53-142 | the text "y x / ." prints y / x, or halts with nothing printed when x is zero |
| Programs.DupAddText | src/main.rs:53-142 | the text "v DUP + ." prints 2v, or halts on overflow |
| Programs.SwapText | src/main.rs:53-142 | the text "a b SWAP . ." prints b, then a |
| Programs.RotText | src/main.rs:53-142 | the text "a b c ROT . . ." prints c, a, b |
| Programs.OverText | src/main.rs:53-142 | the text "a b OVER . . ." prints b, a, b |
| Programs.SwapExample | src/main.rs:129-134 | "1 2 SWAP . ." prints 2, then 1 |
| Programs.RotExample | src/main.rs:114-121 | "1 2 3 ROT . . ." prints 3, 1, 2 |
| Programs.OverExample | src/main.rs:122-128 | "1 2 OVER . . ." prints 2, 1, 2 |
| Programs.DivisionByZeroExample | src/main.rs:104-108 | "5 0 / ." halts at the division with nothing printed |
| Programs.UnknownWordExample | src/main.rs:86 | "FOO" halts at once with UnknownWord("FOO") |
| Programs.UnderflowExample | src/main.rs:89-91 | "+" halts at once with a stack underflow |
| Programs.PrintsLiteralText | src/main.rs:53-142 | the text "v ." prints v, for every u32 value v |

## Left out

- Reading the program: the command-line argument, `File::open` and `read_to_string` (src/main.rs:47-51) are I/O. `Interpreter.Interpret` takes the text as a parameter.
- `println!` and the `Display` impl (src/main.rs:23-30, 88): the output is the sequence of printed values. The text form "{} \n", with its trailing space, is formatting only.
- `Token::value` (src/main.rs:15-20): the literal's value is pushed directly. Its `panic!` is unreachable, because `value` is only called on an `Integer`.
- The `HashMap`: the table is a fixed `map` with the same ten entries.
- Dictionary.ToUpper: only ASCII a-z and U+017F (long s, upper-cased to 'S') are mapped, not all of `str::to_uppercase`. Lookup is nevertheless exact. No name contains a letter other than A, D, E, O, P, R, S, T, U, V and W, and among non-ASCII characters only U+017F upper-cases to one of these letters alone. The multi-letter upper-cases (such as "ß" to "SS", or the ligatures "ﬅ" and "ﬆ" to "ST") form no name. A word that is not found keeps its original text in `UnknownWord`.
- Machine.Effects: arithmetic faults where a debug build panics: a u32 overflow on Add or Mul, a negative difference on Sub, and division by zero. The release build's wrap-around on Add, Sub and Mul is not modelled.
- Interpreter.Evaluator.Execute: underflow is checked before the first pop. The source panics after a partial pop, but a halted run discards the stack, so the two are indistinguishable. On an arithmetic fault, the evaluator's stack is not specified, for the same reason.
- Interpreter.Evaluator.Run: a fault is returned as a typed value instead of aborting the process. The process's exit status and panic message are not modelled.
