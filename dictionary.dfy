/**
 * The dictionary (src/main.rs:56-67): ten upper-case names, each bound to one
 * operation of the closed enumeration `Op` (src/main.rs:33-44). A word is
 * looked up by its upper-case form, so lookup ignores case.
 */
module Dictionary {
  import opened Wrappers

  /** `Op` (src/main.rs:33-44). */
  datatype Op = Print | Add | Sub | Mul | Div | Dup | Rotate | Over | Swap | Drop

  /** The name under which each operation is entered. */
  function Name(op: Op): string {
    match op
    case Print => "."
    case Add => "+"
    case Sub => "-"
    case Mul => "*"
    case Div => "/"
    case Dup => "DUP"
    case Rotate => "ROT"
    case Over => "OVER"
    case Swap => "SWAP"
    case Drop => "DROP"
  }

  /** The table the ten inserts build. */
  const Entries: map<string, Op> := map[
    "." := Print, "+" := Add, "-" := Sub, "*" := Mul, "/" := Div,
    "DUP" := Dup, "ROT" := Rotate, "OVER" := Over, "SWAP" := Swap, "DROP" := Drop]

  /**
   * Upper-casing of one character: ASCII a-z, and U+017F (long s), whose
   * upper-case form is 'S'; every other character is kept.
   */
  function UpperChar(c: char): char {
    if 'a' <= c <= 'z' then (c as int - 32) as char
    else if c == '\U{17F}' then 'S'
    else c
  }

  /** ASCII lower-casing, used to state that lookup ignores case. */
  function LowerChar(c: char): char {
    if 'A' <= c <= 'Z' then (c as int + 32) as char else c
  }

  /** `str::to_uppercase`, character by character (see `UpperCaseMeaning`). */
  function ToUpper(s: string): string
  {
    seq(|s|, i requires 0 <= i < |s| => UpperChar(s[i]))
  }

  /**
   * What upper-casing does: no ASCII lower-case letter is left, each becomes
   * its capital, long s becomes 'S', and every other character is kept.
   */
  lemma UpperCaseMeaning(s: string)
    ensures |ToUpper(s)| == |s|
    ensures forall i :: 0 <= i < |s| ==> !('a' <= ToUpper(s)[i] <= 'z')
    ensures forall i :: 0 <= i < |s| && 'a' <= s[i] <= 'z' ==>
      'A' <= ToUpper(s)[i] <= 'Z' && LowerChar(ToUpper(s)[i]) == s[i]
    ensures forall i :: 0 <= i < |s| && s[i] == '\U{17F}' ==> ToUpper(s)[i] == 'S'
    ensures forall i :: 0 <= i < |s| && !('a' <= s[i] <= 'z') && s[i] != '\U{17F}' ==> ToUpper(s)[i] == s[i]
  {
  }

  /** ASCII lower-casing, character by character (see `LowerCaseMeaning`). */
  function ToLower(s: string): string {
    seq(|s|, i requires 0 <= i < |s| => LowerChar(s[i]))
  }

  /**
   * What lower-casing does: no ASCII capital is left, each becomes the letter
   * whose upper-case form it is, and every other character is kept.
   */
  lemma LowerCaseMeaning(s: string)
    ensures |ToLower(s)| == |s|
    ensures forall i :: 0 <= i < |s| ==> !('A' <= ToLower(s)[i] <= 'Z')
    ensures forall i :: 0 <= i < |s| && 'A' <= s[i] <= 'Z' ==>
      'a' <= ToLower(s)[i] <= 'z' && UpperChar(ToLower(s)[i]) == s[i]
    ensures forall i :: 0 <= i < |s| && !('A' <= s[i] <= 'Z') ==> ToLower(s)[i] == s[i]
  {
  }

  /** `dict[&word.to_uppercase()]` (src/main.rs:86), with a missing key as `None`. */
  function Lookup(word: string): Option<Op> {
    var key := ToUpper(word);
    if key in Entries then Some(Entries[key]) else None
  }

  /** Every operation is entered under its name. */
  lemma NamesAreKeys()
    ensures forall op: Op :: Name(op) in Entries && Entries[Name(op)] == op
  {
    forall op: Op
      ensures Name(op) in Entries && Entries[Name(op)] == op
    {
      match op
      case Print =>
      case Add =>
      case Sub =>
      case Mul =>
      case Div =>
      case Dup =>
      case Rotate =>
      case Over =>
      case Swap =>
      case Drop =>
    }
  }

  /** Every key of the table is the name of the operation it is bound to. */
  lemma KeysAreNames()
    ensures forall key :: key in Entries ==> Name(Entries[key]) == key
  {
    assert Entries.Keys == {".", "+", "-", "*", "/", "DUP", "ROT", "OVER", "SWAP", "DROP"};
  }

  /** The table holds exactly the ten names, each bound to its own operation. */
  lemma EntriesAreNames()
    ensures forall op: Op :: Name(op) in Entries && Entries[Name(op)] == op
    ensures forall key :: key in Entries ==> Name(Entries[key]) == key
  {
    NamesAreKeys();
    KeysAreNames();
  }

  /** Distinct operations have distinct names. */
  lemma NameInjective(a: Op, b: Op)
    requires Name(a) == Name(b)
    ensures a == b
  {
    EntriesAreNames();
  }

  /** A word resolves to an operation exactly when its upper-case form is that operation's name. */
  lemma LookupIff(word: string, op: Op)
    ensures Lookup(word) == Some(op) <==> ToUpper(word) == Name(op)
  {
    EntriesAreNames();
  }

  /** A word that is no name in any case does not resolve. */
  lemma LookupNone(word: string)
    ensures Lookup(word) == None <==> forall op: Op :: ToUpper(word) != Name(op)
  {
    EntriesAreNames();
    if Lookup(word).Some? {
      LookupIff(word, Lookup(word).value);
    }
  }

  lemma {:induction false} UpperOfLower(s: string)
    ensures ToUpper(ToLower(s)) == ToUpper(s)
  {
    forall i | 0 <= i < |s|
      ensures ToUpper(ToLower(s))[i] == ToUpper(s)[i]
    {
      var c := s[i];
      if 'A' <= c <= 'Z' {
        assert UpperChar(LowerChar(c)) == c == UpperChar(c);
      }
    }
  }

  lemma {:induction false} UpperIdempotent(s: string)
    ensures ToUpper(ToUpper(s)) == ToUpper(s)
  {
    forall i | 0 <= i < |s|
      ensures ToUpper(ToUpper(s))[i] == ToUpper(s)[i]
    {
    }
  }

  /** Lookup ignores case: a word, its upper-case and its lower-case form resolve alike. */
  lemma LookupIgnoresCase(word: string)
    ensures Lookup(ToLower(word)) == Lookup(word)
    ensures Lookup(ToUpper(word)) == Lookup(word)
  {
    UpperOfLower(word);
    UpperIdempotent(word);
  }
}
