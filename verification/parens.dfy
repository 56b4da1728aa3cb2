/** The parenthesis check of script.js:229-237 and the brace
    normalisation that runs before it (script.js:39). */
module Parens {

  /** How a character moves the running balance: `(` and `{` open, `)` and
      `}` close, everything else leaves it alone. */
  function Delta(c: char): int
  {
    if c == '(' || c == '{' then 1
    else if c == ')' || c == '}' then -1
    else 0
  }

  /** The balance after reading all of `s`. */
  function Depth(s: string): int
  {
    if |s| == 0 then 0 else Depth(s[..|s| - 1]) + Delta(s[|s| - 1])
  }

  /** The loop of `areParenthesesBalanced` from index `i` with running
      balance `balance`: give up as soon as the balance drops below zero,
      and accept at the end exactly when it is back at zero. */
  function BalanceLoop(s: string, i: nat, balance: int): bool
    requires i <= |s|
    decreases |s| - i
  {
    if i == |s| then balance == 0
    else
      var b := balance + Delta(s[i]);
      if b < 0 then false else BalanceLoop(s, i + 1, b)
  }

  function AreParenthesesBalanced(s: string): bool
  {
    BalanceLoop(s, 0, 0)
  }

  /** No prefix closes more than it opens, and the whole string closes as
      many as it opens. */
  predicate WellNested(s: string)
  {
    && (forall k :: 0 <= k <= |s| ==> Depth(s[..k]) >= 0)
    && Depth(s) == 0
  }

  lemma DepthStep(s: string, k: nat)
    requires k < |s|
    ensures Depth(s[..k + 1]) == Depth(s[..k]) + Delta(s[k])
  {
    assert s[..k + 1][..k] == s[..k];
  }

  lemma {:induction false} BalanceLoopSpec(s: string, i: nat, balance: int)
    requires i <= |s| && balance == Depth(s[..i]) && balance >= 0
    ensures BalanceLoop(s, i, balance) <==>
      (forall k :: i <= k <= |s| ==> Depth(s[..k]) >= 0) && Depth(s) == 0
    decreases |s| - i
  {
    assert s[..|s|] == s;
    if i < |s| {
      var b := balance + Delta(s[i]);
      DepthStep(s, i);
      if b >= 0 {
        BalanceLoopSpec(s, i + 1, b);
      }
    }
  }

  /** `areParenthesesBalanced` accepts exactly the well-nested strings. */
  lemma ParenthesesBalancedIff(s: string)
    ensures AreParenthesesBalanced(s) <==> WellNested(s)
  {
    assert s[..0] == [];
    BalanceLoopSpec(s, 0, 0);
  }

  /** `{` becomes `(` and `}` becomes `)`; nothing else changes. */
  function ReplaceBraces(s: string): (r: string)
    ensures |r| == |s|
  {
    seq(|s|, i requires 0 <= i < |s| => if s[i] == '{' then '(' else if s[i] == '}' then ')' else s[i])
  }

  /** The normalised text holds no braces, keeps every other character in
      place, and is left alone by a second normalisation. */
  lemma ReplaceBracesSpec(s: string)
    ensures forall i :: 0 <= i < |s| ==> ReplaceBraces(s)[i] != '{' && ReplaceBraces(s)[i] != '}'
    ensures forall i :: 0 <= i < |s| && s[i] != '{' && s[i] != '}' ==> ReplaceBraces(s)[i] == s[i]
    ensures ReplaceBraces(ReplaceBraces(s)) == ReplaceBraces(s)
  {
  }

  /** Normalising never moves the balance, so checking before or after it
      gives the same verdict. */
  lemma {:induction false} DepthReplaceBraces(s: string)
    ensures Depth(ReplaceBraces(s)) == Depth(s)
    decreases |s|
  {
    if |s| > 0 {
      var n := |s| - 1;
      assert ReplaceBraces(s)[..n] == ReplaceBraces(s[..n]);
      DepthReplaceBraces(s[..n]);
    }
  }

  lemma BalanceReplaceBraces(s: string)
    ensures AreParenthesesBalanced(ReplaceBraces(s)) == AreParenthesesBalanced(s)
  {
    var r := ReplaceBraces(s);
    ParenthesesBalancedIff(s);
    ParenthesesBalancedIff(r);
    forall k | 0 <= k <= |s|
      ensures Depth(r[..k]) == Depth(s[..k])
    {
      assert r[..k] == ReplaceBraces(s[..k]);
      DepthReplaceBraces(s[..k]);
    }
    DepthReplaceBraces(s);
  }
}
