/** The display columns `parseExpression` collects (script.js:168,
    181-195): every innermost parenthesised group of the text, then each
    declared variable and its negation, without repeats, ordered by length. */
module SubExpressions {

  predicate IsParen(c: char)
  {
    c == '(' || c == ')'
  }

  /** `(`, at least one character that is not a parenthesis, `)`: the
      shape the pattern `\([^()]+\)` matches. */
  predicate IsInnerGroup(g: string)
  {
    && |g| >= 3
    && g[0] == '(' && g[|g| - 1] == ')'
    && forall k :: 0 < k < |g| - 1 ==> !IsParen(g[k])
  }

  /** `g` is the piece of `s` starting at index `i`. */
  predicate OccursAt(g: string, s: string, i: nat)
  {
    i + |g| <= |s| && s[i..i + |g|] == g
  }

  /** `g` is a contiguous piece of `s`. */
  ghost predicate Occurs(g: string, s: string)
  {
    exists i: nat :: OccursAt(g, s, i)
  }

  /** Length of the leading run of non-parenthesis characters (the greedy
      `[^()]+`). */
  function NonParenRun(s: string): (n: nat)
    ensures n <= |s|
    ensures forall i :: 0 <= i < n ==> !IsParen(s[i])
    ensures n == |s| || IsParen(s[n])
  {
    if |s| == 0 || IsParen(s[0]) then 0 else 1 + NonParenRun(s[1..])
  }

  /** The global `exec` loop of script.js:182-185: try a match at each
      position from left to right, and after a match go on right behind it. */
  function InnerGroups(s: string): seq<string>
    decreases |s|
  {
    if |s| == 0 then []
    else if s[0] == '(' then
      var k := NonParenRun(s[1..]);
      if 0 < k && k + 1 < |s| && s[k + 1] == ')' then [s[..k + 2]] + InnerGroups(s[k + 2..])
      else InnerGroups(s[1..])
    else InnerGroups(s[1..])
  }

  lemma OccursShift(g: string, s: string, m: nat)
    requires m <= |s| && Occurs(g, s[m..])
    ensures Occurs(g, s)
  {
    var i: nat :| OccursAt(g, s[m..], i);
    assert s[m + i..m + i + |g|] == g;
    assert OccursAt(g, s, m + i);
  }

  /** Every collected group is an innermost group of the text. */
  lemma {:induction false} InnerGroupsSound(s: string)
    ensures forall g :: g in InnerGroups(s) ==> IsInnerGroup(g) && Occurs(g, s)
    decreases |s|
  {
    if |s| > 0 {
      var m := 1;
      if s[0] == '(' {
        var k := NonParenRun(s[1..]);
        if 0 < k && k + 1 < |s| && s[k + 1] == ')' {
          m := k + 2;
          var g := s[..m];
          assert forall j :: 0 < j < |g| - 1 ==> g[j] == s[1..][j - 1];
          assert OccursAt(g, s, 0);
        }
      }
      InnerGroupsSound(s[m..]);
      forall g | g in InnerGroups(s[m..])
        ensures Occurs(g, s)
      {
        OccursShift(g, s, m);
      }
    }
  }

  /** An innermost group at the very start is what the scan matches there. */
  lemma GroupAtStart(s: string, j: nat)
    requires j <= |s| && IsInnerGroup(s[..j])
    ensures NonParenRun(s[1..]) == j - 2 && s[j - 1] == ')'
  {
    var g := s[..j];
    assert forall t :: 0 <= t < j - 2 ==> s[1..][t] == g[t + 1];
    assert s[1..][j - 2] == g[|g| - 1];
  }

  /** Where the scan goes on after looking at index 0: behind the match,
      or at the next index. */
  function Skip(s: string): (m: nat)
    requires |s| > 0
    ensures 1 <= m <= |s|
  {
    if s[0] == '(' then
      var k := NonParenRun(s[1..]);
      if 0 < k && k + 1 < |s| && s[k + 1] == ')' then k + 2 else 1
    else 1
  }

  lemma SkipTail(s: string)
    requires |s| > 0
    ensures forall x :: x in InnerGroups(s[Skip(s)..]) ==> x in InnerGroups(s)
  {
  }

  /** No innermost group starts inside the piece the scan skips. */
  lemma SkipBound(s: string, i: nat, j: nat)
    requires 0 < i <= j <= |s| && IsInnerGroup(s[i..j])
    ensures i >= Skip(s)
  {
    assert s[i..j][0] == s[i];
    if s[0] == '(' {
      var k := NonParenRun(s[1..]);
      assert forall t :: 0 <= t < k ==> s[1..][t] == s[t + 1];
    }
  }

  /** Every innermost group of the text is collected. Two innermost groups
      never overlap, so the left-to-right scan cannot jump over one. */
  lemma {:induction false} InnerGroupsComplete(s: string, i: nat, j: nat)
    requires i <= j <= |s| && IsInnerGroup(s[i..j])
    ensures s[i..j] in InnerGroups(s)
    decreases |s|
  {
    if i == 0 {
      GroupAtStart(s, j);
    } else {
      var m := Skip(s);
      SkipBound(s, i, j);
      SuffixSlice(s, m, i, j);
      InnerGroupsComplete(s[m..], i - m, j - m);
      SkipTail(s);
    }
  }

  lemma SuffixSlice(s: string, m: nat, i: nat, j: nat)
    requires m <= i <= j <= |s|
    ensures s[m..][i - m..j - m] == s[i..j]
  {
  }

  /** The atomic columns of script.js:188-191: `v` then `¬v` per variable. */
  function Atomics(vars: seq<string>): (r: seq<string>)
    ensures forall x :: x in r <==> exists v :: v in vars && (x == v || x == "¬" + v)
  {
    if |vars| == 0 then []
    else
      var rest := Atomics(vars[1..]);
      assert forall v :: v in vars[1..] ==> v in vars;
      assert forall v :: v in vars ==> v == vars[0] || v in vars[1..];
      [vars[0], "¬" + vars[0]] + rest
  }

  predicate Distinct(s: seq<string>)
  {
    forall i, j :: 0 <= i < j < |s| ==> s[i] != s[j]
  }

  /** Adding the elements of `s` one by one to a JavaScript `Set`: an
      element already present is skipped, so each keeps the place of its
      first insertion. */
  function Dedup(s: seq<string>): (r: seq<string>)
    ensures Distinct(r)
    ensures forall x :: x in r <==> x in s
  {
    if |s| == 0 then []
    else
      var front := s[..|s| - 1];
      var d := Dedup(front);
      assert forall x :: x in s <==> x in front || x == s[|s| - 1];
      if s[|s| - 1] in d then d else d + [s[|s| - 1]]
  }

  predicate SortedByLength(s: seq<string>)
  {
    forall i, j :: 0 <= i < j < |s| ==> |s[i]| <= |s[j]|
  }

  /** Put `x` in front of the first element at least as long. */
  function Insert(x: string, t: seq<string>): (r: seq<string>)
    ensures multiset(r) == multiset{x} + multiset(t)
    ensures |r| == |t| + 1
    ensures r[0] == x || (|t| > 0 && r[0] == t[0])
    ensures SortedByLength(t) ==> SortedByLength(r)
  {
    if |t| == 0 then [x]
    else if |x| <= |t[0]| then [x] + t
    else
      var r := Insert(x, t[1..]);
      assert t == [t[0]] + t[1..];
      InsertSortedStep(x, t, r);
      [t[0]] + r
  }

  lemma InsertSortedStep(x: string, t: seq<string>, r: seq<string>)
    requires |t| > 0 && |x| > |t[0]| && |r| == |t|
    requires r[0] == x || (|t| > 1 && r[0] == t[1])
    requires SortedByLength(t[1..]) ==> SortedByLength(r)
    ensures SortedByLength(t) ==> SortedByLength([t[0]] + r)
  {
    if SortedByLength(t) {
      assert SortedByLength(t[1..]) by {
        forall i, j | 0 <= i < j < |t[1..]|
          ensures |t[1..][i]| <= |t[1..][j]|
        {
          assert t[1..][i] == t[i + 1] && t[1..][j] == t[j + 1];
        }
      }
      var u := [t[0]] + r;
      forall i, j | 0 <= i < j < |u|
        ensures |u[i]| <= |u[j]|
      {
        if i == 0 {
          assert u[j] == r[j - 1];
          assert |t[0]| <= |r[0]|;
          if j > 1 {
            assert |r[0]| <= |r[j - 1]|;
          }
        } else {
          assert u[i] == r[i - 1] && u[j] == r[j - 1];
        }
      }
    }
  }

  /** The stable sort of `Array.prototype.sort` with comparator
      `a.length - b.length`. */
  function SortByLength(s: seq<string>): (r: seq<string>)
    ensures multiset(r) == multiset(s)
    ensures SortedByLength(r)
  {
    if |s| == 0 then []
    else
      assert s == [s[0]] + s[1..];
      Insert(s[0], SortByLength(s[1..]))
  }

  /** The elements of length `n`, in order. */
  function OfLength(s: seq<string>, n: nat): seq<string>
  {
    if |s| == 0 then []
    else (if |s[0]| == n then [s[0]] else []) + OfLength(s[1..], n)
  }

  lemma {:induction false} InsertOfLength(x: string, t: seq<string>, n: nat)
    ensures OfLength(Insert(x, t), n) == (if |x| == n then [x] else []) + OfLength(t, n)
    decreases |t|
  {
    if |t| == 0 {
    } else if |x| <= |t[0]| {
      OfLengthCons(x, t, n);
    } else {
      var rest := Insert(x, t[1..]);
      assert Insert(x, t) == [t[0]] + rest;
      assert t == [t[0]] + t[1..];
      InsertOfLength(x, t[1..], n);
      OfLengthCons(t[0], rest, n);
      OfLengthCons(t[0], t[1..], n);
      SwapFront(if |x| == n then [x] else [], if |t[0]| == n then [t[0]] else [], OfLength(t[1..], n));
    }
  }

  lemma OfLengthCons(y: string, u: seq<string>, n: nat)
    ensures OfLength([y] + u, n) == (if |y| == n then [y] else []) + OfLength(u, n)
  {
    assert ([y] + u)[1..] == u;
  }

  lemma SwapFront<T>(a: seq<T>, b: seq<T>, tail: seq<T>)
    requires a == [] || b == []
    ensures b + (a + tail) == a + (b + tail)
  {
    if a == [] {
      assert a + tail == tail;
      assert a + (b + tail) == b + tail;
    } else {
      assert b + (a + tail) == a + tail;
      assert b + tail == tail;
    }
  }

  /** Stability: elements of equal length keep their input order. */
  lemma {:induction false} SortStable(s: seq<string>, n: nat)
    ensures OfLength(SortByLength(s), n) == OfLength(s, n)
    decreases |s|
  {
    if |s| > 0 {
      SortStable(s[1..], n);
      InsertOfLength(s[0], SortByLength(s[1..]), n);
    }
  }

  /** The `subExpressions` list of script.js:193. */
  function Columns(expr: string, vars: seq<string>): seq<string>
  {
    SortByLength(Dedup(InnerGroups(expr) + Atomics(vars)))
  }

  lemma DistinctMultiset(s: seq<string>, t: seq<string>)
    requires multiset(s) == multiset(t) && Distinct(t)
    ensures Distinct(s)
  {
    forall i, j | 0 <= i < j < |s|
      ensures s[i] != s[j]
    {
      if s[i] == s[j] {
        assert s == s[..j] + [s[j]] + s[j + 1..];
        assert s[i] in s[..j];
        assert multiset(s)[s[i]] >= 2;
        DistinctCount(t, s[i]);
      }
    }
  }

  lemma {:induction false} DistinctCount(t: seq<string>, x: string)
    requires Distinct(t)
    ensures multiset(t)[x] <= 1
    decreases |t|
  {
    if |t| > 0 {
      var n := |t| - 1;
      assert t == t[..n] + [t[n]];
      DistinctCount(t[..n], x);
      if t[n] == x {
        assert x !in t[..n];
      }
    }
  }

  /** The columns: each innermost group and each `v` and `¬v` exactly
      once, and nothing else, shortest first, with the groups of equal
      length in the order the scan met them. */
  lemma ColumnsSpec(expr: string, vars: seq<string>)
    ensures var cs := Columns(expr, vars);
      && Distinct(cs)
      && SortedByLength(cs)
      && (forall x :: x in cs <==>
            x in InnerGroups(expr) || exists v :: v in vars && (x == v || x == "¬" + v))
      && (forall n: nat :: OfLength(cs, n) == OfLength(Dedup(InnerGroups(expr) + Atomics(vars)), n))
  {
    var d := Dedup(InnerGroups(expr) + Atomics(vars));
    var cs := Columns(expr, vars);
    DistinctMultiset(cs, d);
    assert forall x :: x in cs <==> x in multiset(cs);
    assert forall x :: x in d <==> x in multiset(d);
    forall n: nat
      ensures OfLength(cs, n) == OfLength(d, n)
    {
      SortStable(d, n);
    }
  }
}
