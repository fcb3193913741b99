/**
 * Tokenizer and classifier (src/main.rs:53, 70-78): the source text is split
 * into whitespace-separated atoms, and each atom becomes an `Integer` when
 * `u32::from_str` accepts it and a `Word` carrying its text otherwise.
 */
module Lexer {
  import opened Wrappers
  import opened Numerals

  /** `char::is_whitespace`: the characters with the Unicode White_Space property. */
  predicate IsWhitespace(c: char) {
    ('\t' <= c <= '\r') || c == ' ' || c == '\U{85}' || c == '\U{A0}' || c == '\U{1680}'
    || ('\U{2000}' <= c <= '\U{200A}') || c == '\U{2028}' || c == '\U{2029}'
    || c == '\U{202F}' || c == '\U{205F}' || c == '\U{3000}'
  }

  /** An atom: a non-empty run of non-whitespace characters. */
  predicate IsAtom(a: string) {
    |a| > 0 && forall i :: 0 <= i < |a| ==> !IsWhitespace(a[i])
  }

  /** The length of the run of non-whitespace characters that starts `s`. */
  function RunLength(s: string): (k: nat)
    ensures k <= |s|
    ensures forall i :: 0 <= i < k ==> !IsWhitespace(s[i])
    ensures k < |s| ==> IsWhitespace(s[k])
    decreases |s|
  {
    if s == [] || IsWhitespace(s[0]) then 0 else 1 + RunLength(s[1..])
  }

  /** `str::split_whitespace`: the maximal non-whitespace runs of `s`, in order. */
  function Atoms(s: string): (atoms: seq<string>)
    ensures forall i :: 0 <= i < |atoms| ==> IsAtom(atoms[i])
    decreases |s|
  {
    if s == [] then []
    else if IsWhitespace(s[0]) then Atoms(s[1..])
    else
      var k := RunLength(s);
      [s[..k]] + Atoms(s[k..])
  }

  /** The atoms written out with one space between neighbours. */
  function Unwords(atoms: seq<string>): string {
    if atoms == [] then []
    else if |atoms| == 1 then atoms[0]
    else atoms[0] + " " + Unwords(atoms[1..])
  }

  /** The characters of `s` that are not whitespace, in order. */
  function Visible(s: string): string {
    if s == [] then []
    else (if IsWhitespace(s[0]) then [] else [s[0]]) + Visible(s[1..])
  }

  function Concat(atoms: seq<string>): string {
    if atoms == [] then [] else atoms[0] + Concat(atoms[1..])
  }

  lemma {:induction false} VisibleAppend(a: string, b: string)
    ensures Visible(a + b) == Visible(a) + Visible(b)
    decreases |a|
  {
    if a != [] {
      assert (a + b)[1..] == a[1..] + b;
      VisibleAppend(a[1..], b);
    } else {
      assert a + b == b;
    }
  }

  lemma {:induction false} VisibleOfAtom(a: string)
    requires forall i :: 0 <= i < |a| ==> !IsWhitespace(a[i])
    ensures Visible(a) == a
    decreases |a|
  {
    if a != [] {
      VisibleOfAtom(a[1..]);
      assert a == [a[0]] + a[1..];
    }
  }

  /** Splitting loses exactly the whitespace: the atoms put together are the visible text. */
  lemma {:induction false} AtomsConcat(s: string)
    ensures Concat(Atoms(s)) == Visible(s)
    decreases |s|
  {
    if s != [] {
      if IsWhitespace(s[0]) {
        AtomsConcat(s[1..]);
      } else {
        var k := RunLength(s);
        assert s == s[..k] + s[k..];
        VisibleAppend(s[..k], s[k..]);
        VisibleOfAtom(s[..k]);
        AtomsConcat(s[k..]);
        assert Atoms(s)[1..] == Atoms(s[k..]);
      }
    }
  }

  lemma {:induction false} RunLengthExtend(a: string, t: string)
    requires forall i :: 0 <= i < |a| ==> !IsWhitespace(a[i])
    requires t == [] || IsWhitespace(t[0])
    ensures RunLength(a + t) == |a|
    decreases |a|
  {
    if a != [] {
      assert (a + t)[1..] == a[1..] + t;
      RunLengthExtend(a[1..], t);
    } else {
      assert a + t == t;
    }
  }

  lemma {:induction false} RunLengthPrefix(a: string, t: string)
    requires RunLength(a) < |a|
    ensures RunLength(a + t) == RunLength(a)
    decreases |a|
  {
    if !IsWhitespace(a[0]) {
      assert (a + t)[1..] == a[1..] + t;
      RunLengthPrefix(a[1..], t);
    }
  }

  /** Splitting at a whitespace character splits the atoms there. */
  lemma {:induction false} AtomsSplit(a: string, c: char, b: string)
    requires IsWhitespace(c)
    ensures Atoms(a + [c] + b) == Atoms(a) + Atoms(b)
    decreases |a|
  {
    var s := a + [c] + b;
    if a == [] {
      assert s[1..] == b;
    } else if IsWhitespace(a[0]) {
      assert s[1..] == a[1..] + [c] + b;
      AtomsSplit(a[1..], c, b);
    } else {
      var k := RunLength(a);
      if k == |a| {
        RunLengthExtend(a, [c] + b);
        assert s == a + ([c] + b);
        assert s[..k] == a && s[k..] == [c] + b;
        assert ([c] + b)[1..] == b;
        assert Atoms([c] + b) == Atoms(b);
        assert a[..k] == a && a[k..] == [];
        assert Atoms(a) == [a];
        assert Atoms(s) == [a] + Atoms([c] + b);
      } else {
        RunLengthPrefix(a, [c] + b);
        assert s == a + ([c] + b);
        assert s[..k] == a[..k];
        assert s[k..] == a[k..] + [c] + b;
        AtomsSplit(a[k..], c, b);
      }
    }
  }

  lemma AtomsOfAtom(a: string)
    requires IsAtom(a)
    ensures Atoms(a) == [a]
  {
    RunLengthExtend(a, []);
    assert a + [] == a;
  }

  /** Atoms separated by single spaces split back into the same atoms. */
  lemma {:induction false} AtomsUnwords(atoms: seq<string>)
    requires forall i :: 0 <= i < |atoms| ==> IsAtom(atoms[i])
    ensures Atoms(Unwords(atoms)) == atoms
    decreases |atoms|
  {
    if |atoms| == 1 {
      AtomsOfAtom(atoms[0]);
    } else if |atoms| > 1 {
      AtomsSplit(atoms[0], ' ', Unwords(atoms[1..]));
      AtomsOfAtom(atoms[0]);
      AtomsUnwords(atoms[1..]);
      assert atoms == [atoms[0]] + atoms[1..];
    }
  }

  /** `Token` (src/main.rs:9-12). */
  datatype Token = Integer(value: U32) | Word(text: string)

  /** One iteration of the classification loop (src/main.rs:71-77). */
  function Classify(atom: string): Token {
    match ParseU32(atom)
    case Some(n) => Integer(n)
    case None => Word(atom)
  }

  /** An optional '+', any number of zeros and the numeral of a u32 value classify as that value. */
  lemma ClassifyNumeral(n: U32, k: nat, plus: bool)
    ensures Classify((if plus then "+" else "") + Zeros(k) + Decimal(n)) == Integer(n)
  {
    ParseU32Numeral(n, k, plus);
  }

  /** A literal's text, stripped of its sign and leading zeros, is the numeral of its value. */
  lemma ClassifyInteger(atom: string)
    requires Classify(atom).Integer?
    ensures AllDigits(Unsigned(atom)) && |Unsigned(atom)| > 0
    ensures Decimal(Classify(atom).value) == StripZeros(Unsigned(atom))
  {
    ParseU32Accepted(atom);
  }

  /** A word keeps the atom's text unchanged, case included. */
  lemma ClassifyWord(atom: string)
    requires Classify(atom).Word?
    ensures Classify(atom).text == atom
    ensures ParseU32(atom) == None
  {
  }

  /** The token sequence of a source text: one token per atom, in order. */
  function Tokens(text: string): seq<Token>
  {
    var atoms := Atoms(text);
    seq(|atoms|, i requires 0 <= i < |atoms| => Classify(atoms[i]))
  }

  /** The classification loop (src/main.rs:70-78), pushing one token per atom. */
  method Tokenize(atoms: seq<string>) returns (tokens: seq<Token>)
    ensures |tokens| == |atoms|
    ensures forall i :: 0 <= i < |atoms| ==> tokens[i] == Classify(atoms[i])
  {
    tokens := [];
    for i := 0 to |atoms|
      invariant |tokens| == i
      invariant forall j :: 0 <= j < i ==> tokens[j] == Classify(atoms[j])
    {
      var x := ParseU32(atoms[i]);
      if x.Some? {
        tokens := tokens + [Integer(x.value)];
      } else {
        tokens := tokens + [Word(atoms[i])];
      }
    }
  }
}
