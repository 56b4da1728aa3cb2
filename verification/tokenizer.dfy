/** The tokenizer of the shunting-yard pipeline: the global match of
    `[∧∨¬→△↔()]|[A-Za-z]+` over the expression (script.js:134). */
module Tokenizer {

  import opened Basics
  import opened Operators

  datatype Token = Var(name: string) | Operator(op: Op) | LParen | RParen

  predicate IsLetter(c: char)
  {
    'A' <= c <= 'Z' || 'a' <= c <= 'z'
  }

  /** A non-empty run of letters: the shape of every variable token. */
  predicate IsName(s: string)
  {
    |s| > 0 && forall i :: 0 <= i < |s| ==> IsLetter(s[i])
  }

  /** The single-character alternative `[∧∨¬→△↔()]` of the pattern. */
  function SymbolToken(c: char): Option<Token>
  {
    if c == '(' then Some(LParen)
    else if c == ')' then Some(RParen)
    else match SymbolOp(c)
      case Some(op) => Some(Operator(op))
      case None => None
  }

  /** Characters that can be part of some match; every other one is skipped. */
  predicate Kept(c: char)
  {
    IsLetter(c) || SymbolToken(c).Some?
  }

  function Keep(s: string): (r: string)
    ensures |r| <= |s|
  {
    if |s| == 0 then []
    else if Kept(s[0]) then [s[0]] + Keep(s[1..])
    else Keep(s[1..])
  }

  /** The text a token was matched from. */
  function Text(t: Token): string
  {
    match t
    case Var(n) => n
    case Operator(op) => [Symbol(op)]
    case LParen => "("
    case RParen => ")"
  }

  function Texts(ts: seq<Token>): string
  {
    if |ts| == 0 then [] else Text(ts[0]) + Texts(ts[1..])
  }

  /** No two variable tokens follow each other. */
  predicate NoAdjacentVars(ts: seq<Token>)
  {
    forall i :: 0 <= i < |ts| - 1 ==> !(ts[i].Var? && ts[i + 1].Var?)
  }

  /** Length of the leading run of letters (the greedy `[A-Za-z]+`). */
  function LetterRun(s: string): (n: nat)
    ensures n <= |s|
    ensures forall i :: 0 <= i < n ==> IsLetter(s[i])
    ensures n == |s| || !IsLetter(s[n])
  {
    if |s| == 0 || !IsLetter(s[0]) then 0 else 1 + LetterRun(s[1..])
  }

  /** The token list, left to right: each symbol is one token, each maximal
      run of letters is one variable, anything else is silently dropped. */
  function Tokenize(s: string): seq<Token>
    decreases |s|
  {
    if |s| == 0 then []
    else if SymbolToken(s[0]).Some? then
      [SymbolToken(s[0]).value] + Tokenize(s[1..])
    else if IsLetter(s[0]) then
      var n := LetterRun(s);
      [Var(s[..n])] + Tokenize(s[n..])
    else
      Tokenize(s[1..])
  }

  /** The matched texts spell exactly the kept characters of `s`, and every
      variable token is a non-empty run of letters. */
  lemma {:induction false} TokenizeSpec(s: string)
    ensures Texts(Tokenize(s)) == Keep(s)
    ensures forall i :: 0 <= i < |Tokenize(s)| && Tokenize(s)[i].Var? ==> IsName(Tokenize(s)[i].name)
    decreases |s|
  {
    if |s| == 0 {
    } else if SymbolToken(s[0]).Some? {
      var t := SymbolToken(s[0]).value;
      TokenizeSpec(s[1..]);
      TextsCons(t, Tokenize(s[1..]));
      assert Text(t) == [s[0]];
      assert Tokenize(s) == [t] + Tokenize(s[1..]);
      assert forall i :: 1 <= i < |Tokenize(s)| ==> Tokenize(s)[i] == Tokenize(s[1..])[i - 1];
    } else if IsLetter(s[0]) {
      var n := LetterRun(s);
      TokenizeSpec(s[n..]);
      KeepSplit(s, n);
      TextsCons(Var(s[..n]), Tokenize(s[n..]));
      assert Tokenize(s) == [Var(s[..n])] + Tokenize(s[n..]);
      assert forall i :: 1 <= i < |Tokenize(s)| ==> Tokenize(s)[i] == Tokenize(s[n..])[i - 1];
    } else {
      TokenizeSpec(s[1..]);
    }
  }

  /** When no character is dropped, two variable tokens never follow each
      other: each letter run is taken whole. */
  lemma {:induction false} MaximalRuns(s: string)
    requires forall i :: 0 <= i < |s| ==> Kept(s[i])
    ensures NoAdjacentVars(Tokenize(s))
    decreases |s|
  {
    if |s| == 0 {
    } else if SymbolToken(s[0]).Some? {
      MaximalRuns(s[1..]);
      assert Tokenize(s) == [SymbolToken(s[0]).value] + Tokenize(s[1..]);
    } else {
      var n := LetterRun(s);
      var rest := Tokenize(s[n..]);
      MaximalRuns(s[n..]);
      assert Tokenize(s) == [Var(s[..n])] + rest;
      if |rest| > 0 {
        assert n < |s|;
        assert SymbolToken(s[n]).Some?;
        assert s[n..][0] == s[n];
        assert !rest[0].Var?;
      }
    }
  }

  /** A letter run stops where the text after it begins with a non-letter. */
  lemma {:induction false} RunAppend(a: string, s: string)
    requires s == [] || !IsLetter(s[0])
    ensures LetterRun(a + s) == LetterRun(a)
    decreases |a|
  {
    if |a| == 0 {
      assert a + s == s;
    } else {
      assert (a + s)[0] == a[0];
      assert (a + s)[1..] == a[1..] + s;
      RunAppend(a[1..], s);
    }
  }

  /** Text that does not begin with a letter cannot extend the last name of
      what comes before it, so the two are tokenized apart. */
  lemma {:induction false} TokenizeAppend(a: string, s: string)
    requires s == [] || !IsLetter(s[0])
    ensures Tokenize(a + s) == Tokenize(a) + Tokenize(s)
    decreases |a|
  {
    if |a| == 0 {
      assert a + s == s;
    } else if SymbolToken(a[0]).Some? {
      assert (a + s)[0] == a[0];
      assert (a + s)[1..] == a[1..] + s;
      TokenizeAppend(a[1..], s);
    } else if IsLetter(a[0]) {
      var n := LetterRun(a);
      RunAppend(a, s);
      assert (a + s)[0] == a[0];
      assert (a + s)[..n] == a[..n];
      assert (a + s)[n..] == a[n..] + s;
      TokenizeAppend(a[n..], s);
    } else {
      assert (a + s)[0] == a[0];
      assert (a + s)[1..] == a[1..] + s;
      TokenizeAppend(a[1..], s);
    }
  }

  /** A dropped character separates: no token spans it, so the letters on
      either side of it belong to different variables. */
  lemma DroppedSeparates(a: string, c: char, b: string)
    requires !Kept(c)
    ensures Tokenize(a + [c] + b) == Tokenize(a) + Tokenize(b)
  {
    assert a + [c] + b == a + ([c] + b);
    assert ([c] + b)[0] == c && ([c] + b)[1..] == b;
    TokenizeAppend(a, [c] + b);
  }

  /** A name is one variable token. */
  lemma NameToken(n: string)
    requires IsName(n)
    ensures Tokenize(n) == [Var(n)]
  {
    NameRun(n);
    assert n[..|n|] == n && n[|n|..] == [];
  }

  lemma {:induction false} NameRun(n: string)
    requires forall i :: 0 <= i < |n| ==> IsLetter(n[i])
    ensures LetterRun(n) == |n|
    decreases |n|
  {
    if |n| > 0 {
      NameRun(n[1..]);
    }
  }

  /** Every variable of `ts` is a name. */
  predicate NamedVars(ts: seq<Token>)
  {
    forall i :: 0 <= i < |ts| && ts[i].Var? ==> IsName(ts[i].name)
  }

  /** The symbol of a token other than a variable is read back as that token. */
  lemma SymbolOfText(t: Token)
    requires !t.Var?
    ensures |Text(t)| == 1 && SymbolToken(Text(t)[0]) == Some(t)
  {
    match t
    case Operator(op) =>
      match op {
        case Neg =>
        case Bin(c) =>
          match c {
            case And => case Or => case Implies => case Xor => case Iff =>
          }
      }
    case LParen =>
    case RParen =>
  }

  /** The tokenizer inverts writing tokens out: a list whose variables are
      names and never adjacent is what tokenizing its text gives back. So
      on input with no dropped character, `Tokenize` is the only such list
      whose texts spell the input. */
  lemma {:induction false} TokenizeTexts(ts: seq<Token>)
    requires NoAdjacentVars(ts) && NamedVars(ts)
    ensures Tokenize(Texts(ts)) == ts
    decreases |ts|
  {
    if |ts| > 0 {
      var t, rest := ts[0], ts[1..];
      assert NoAdjacentVars(rest) by {
        forall i | 0 <= i < |rest| - 1 ensures !(rest[i].Var? && rest[i + 1].Var?) {
          assert rest[i] == ts[i + 1] && rest[i + 1] == ts[i + 2];
        }
      }
      assert NamedVars(rest) by {
        forall i | 0 <= i < |rest| && rest[i].Var? ensures IsName(rest[i].name) {
          assert rest[i] == ts[i + 1];
        }
      }
      TokenizeTexts(rest);
      assert ts == [t] + rest;
      TextsCons(t, rest);
      if t.Var? {
        if |rest| > 0 {
          SymbolOfText(rest[0]);
          TextsCons(rest[0], rest[1..]);
          assert rest == [rest[0]] + rest[1..];
          assert Texts(rest)[0] == Text(rest[0])[0];
        }
        TokenizeAppend(t.name, Texts(rest));
        NameToken(t.name);
      } else {
        SymbolOfText(t);
        assert Text(t) + Texts(rest) == [Text(t)[0]] + Texts(rest);
      }
    }
  }

  lemma {:induction false} KeepAppend(a: string, b: string)
    ensures Keep(a + b) == Keep(a) + Keep(b)
    decreases |a|
  {
    if |a| == 0 {
      assert a + b == b;
    } else {
      assert (a + b)[0] == a[0];
      assert (a + b)[1..] == a[1..] + b;
      KeepAppend(a[1..], b);
      if Kept(a[0]) {
        calc {
          Keep(a + b);
          [a[0]] + Keep(a[1..] + b);
          [a[0]] + (Keep(a[1..]) + Keep(b));
          ([a[0]] + Keep(a[1..])) + Keep(b);
        }
      }
    }
  }

  lemma {:induction false} KeepName(s: string)
    requires forall i :: 0 <= i < |s| ==> IsLetter(s[i])
    ensures Keep(s) == s
    decreases |s|
  {
    if |s| > 0 {
      KeepName(s[1..]);
      assert s == [s[0]] + s[1..];
    }
  }

  /** Splitting the input after a leading letter run of length `n`. */
  lemma KeepSplit(s: string, n: nat)
    requires n <= |s|
    requires forall i :: 0 <= i < n ==> IsLetter(s[i])
    ensures Keep(s) == s[..n] + Keep(s[n..])
  {
    assert s == s[..n] + s[n..];
    KeepAppend(s[..n], s[n..]);
    KeepName(s[..n]);
  }

  lemma TextsCons(t: Token, ts: seq<Token>)
    ensures Texts([t] + ts) == Text(t) + Texts(ts)
  {
    assert ([t] + ts)[1..] == ts;
  }

  lemma {:induction false} TextsAppend(a: seq<Token>, b: seq<Token>)
    ensures Texts(a + b) == Texts(a) + Texts(b)
    decreases |a|
  {
    if |a| == 0 {
      assert a + b == b;
    } else {
      assert (a + b)[1..] == a[1..] + b;
      TextsAppend(a[1..], b);
    }
  }
}
