/** The alias rewrite of script2.js:12-18 and 79-83: every key of
    `operatorMap`, in the map's own order, is replaced everywhere by its
    canonical symbol. */
module Aliases {

  /** Starting at index 0, `s` reads `p`. */
  predicate StartsWith(s: string, p: string)
  {
    |p| <= |s| && s[..|p|] == p
  }

  /** `s.replace(new RegExp(escapeRegExp(p), 'g'), r)`: matches are found
      left to right and never overlap. */
  function ReplaceAll(s: string, p: string, r: string): string
    requires |p| > 0
    decreases |s|
  {
    if |s| == 0 then []
    else if StartsWith(s, p) then r + ReplaceAll(s[|p|..], p, r)
    else [s[0]] + ReplaceAll(s[1..], p, r)
  }

  /** The entries of `operatorMap` in insertion order. */
  const Entries: seq<(string, string)> := [
    ("¬", "¬"), ("~", "¬"),
    ("·", "∧"), ("*", "∧"), ("×", "∧"), ("&&", "∧"),
    ("+", "∨"), ("||", "∨"),
    ("→", "→"), ("->", "→"),
    ("↔", "↔"), ("<->", "↔")
  ]

  /** Apply the entries `es` in order. */
  function RewriteWith(s: string, es: seq<(string, string)>): string
    requires forall k :: 0 <= k < |es| ==> |es[k].0| > 0
    decreases |es|
  {
    if |es| == 0 then s else RewriteWith(ReplaceAll(s, es[0].0, es[0].1), es[1..])
  }

  /** The loop of script2.js:79-83. */
  function Rewrite(s: string): string
  {
    RewriteWith(s, Entries)
  }

  /** The characters an alias key starts with. */
  predicate AliasChar(c: char)
  {
    c in "~·*×&+|-<"
  }

  /** A pattern whose first character never occurs is never replaced, and
      replacing a pattern by itself changes nothing. */
  lemma {:induction false} ReplaceAllUnchanged(s: string, p: string, r: string)
    requires |p| > 0
    requires p == r || forall i :: 0 <= i < |s| ==> s[i] != p[0]
    ensures ReplaceAll(s, p, r) == s
    decreases |s|
  {
    if |s| > 0 {
      if StartsWith(s, p) {
        assert s[0] == p[0];
        ReplaceAllUnchanged(s[|p|..], p, r);
        assert s == p + s[|p|..];
      } else {
        ReplaceAllUnchanged(s[1..], p, r);
        assert s == [s[0]] + s[1..];
      }
    }
  }

  /** Replacing never produces a character that was not already in the
      text or in the replacement. */
  lemma {:induction false} ReplaceAllChars(s: string, p: string, r: string, c: char)
    requires |p| > 0
    requires c !in s && c !in r
    ensures c !in ReplaceAll(s, p, r)
    decreases |s|
  {
    if |s| > 0 {
      if StartsWith(s, p) {
        assert forall i :: |p| <= i < |s| ==> s[i] == s[|p|..][i - |p|];
        ReplaceAllChars(s[|p|..], p, r, c);
      } else {
        assert forall i :: 1 <= i < |s| ==> s[i] == s[1..][i - 1];
        ReplaceAllChars(s[1..], p, r, c);
      }
    }
  }

  /** After replacing a one-character pattern by something else without
      that character, the character is gone. */
  lemma {:induction false} ReplaceAllRemoves(s: string, c: char, r: string)
    requires c !in r
    ensures c !in ReplaceAll(s, [c], r)
    decreases |s|
  {
    if |s| > 0 {
      ReplaceAllRemoves(s[1..], c, r);
      if !StartsWith(s, [c]) {
        assert s[..1] == [s[0]];
      }
    }
  }

  /** Entries whose pattern starts with a character the text does not hold
      (or that map a symbol to itself) leave the text as it is. */
  lemma {:induction false} FreeOfEntries(s: string, es: seq<(string, string)>)
    requires forall k :: 0 <= k < |es| ==> |es[k].0| > 0
    requires forall k, i :: 0 <= k < |es| && 0 <= i < |s| ==> es[k].0 == es[k].1 || s[i] != es[k].0[0]
    ensures RewriteWith(s, es) == s
    decreases |es|
  {
    if |es| > 0 {
      ReplaceAllUnchanged(s, es[0].0, es[0].1);
      FreeOfEntries(s, es[1..]);
    }
  }

  /** A text made of letters, parentheses and canonical symbols (no
      character any alias starts with) is left as it is. */
  lemma RewriteCanonical(s: string)
    requires forall i :: 0 <= i < |s| ==> !AliasChar(s[i])
    ensures Rewrite(s) == s
  {
    FreeOfEntries(s, Entries);
  }

  /** The characters in `cs` never appear in an entry's replacement. */
  lemma {:induction false} RewriteKeepsOut(s: string, es: seq<(string, string)>, c: char)
    requires forall k :: 0 <= k < |es| ==> |es[k].0| > 0
    requires forall k :: 0 <= k < |es| ==> c !in es[k].1
    requires c !in s
    ensures c !in RewriteWith(s, es)
    decreases |es|
  {
    if |es| > 0 {
      ReplaceAllChars(s, es[0].0, es[0].1, c);
      RewriteKeepsOut(ReplaceAll(s, es[0].0, es[0].1), es[1..], c);
    }
  }

  /** The entry at index `k` replaces the single character `c`, and no
      entry from `k` on writes `c`: then `c` is gone afterwards. */
  lemma {:induction false} RemovedBy(s: string, es: seq<(string, string)>, k: nat, c: char)
    requires forall j :: 0 <= j < |es| ==> |es[j].0| > 0
    requires k < |es| && es[k].0 == [c]
    requires forall j :: k <= j < |es| ==> c !in es[j].1
    ensures c !in RewriteWith(s, es)
    decreases k
  {
    if k == 0 {
      ReplaceAllRemoves(s, c, es[0].1);
      RewriteKeepsOut(ReplaceAll(s, [c], es[0].1), es[1..], c);
    } else {
      RemovedBy(ReplaceAll(s, es[0].0, es[0].1), es[1..], k - 1, c);
    }
  }

  /** Every entry has a non-empty pattern. */
  lemma EntriesWellFormed()
    ensures forall j :: 0 <= j < |Entries| ==> |Entries[j].0| > 0
  {
  }

  /** The one-character aliases `~ · * × +` are all gone afterwards. */
  lemma SingleAliasRemoved(s: string, c: char)
    requires c in "~·*×+"
    ensures c !in Rewrite(s)
  {
    EntriesWellFormed();
    var k := if c == '~' then 1 else if c == '·' then 2 else if c == '*' then 3 else if c == '×' then 4 else 6;
    assert Entries[k].0 == [c];
    RemovedBy(s, Entries, k, c);
  }

  /** No `-` stands right before a `>`. */
  predicate NoArrow(s: string)
  {
    forall i :: 0 <= i < |s| - 1 ==> !(s[i] == '-' && s[i + 1] == '>')
  }

  lemma ReplaceAllHead(s: string, p: string, r: string)
    requires |p| > 0 && |r| > 0 && |s| > 0
    ensures |ReplaceAll(s, p, r)| > 0
    ensures ReplaceAll(s, p, r)[0] == if StartsWith(s, p) then r[0] else s[0]
  {
  }

  /** After the `->` entry no `->` is left. */
  lemma {:induction false} ArrowsReplaced(s: string)
    ensures NoArrow(ReplaceAll(s, "->", "→"))
    decreases |s|
  {
    if |s| > 0 {
      var p := "->";
      if StartsWith(s, p) {
        var x := ReplaceAll(s[2..], p, "→");
        ArrowsReplaced(s[2..]);
        assert ReplaceAll(s, p, "→") == "→" + x;
      } else {
        var x := ReplaceAll(s[1..], p, "→");
        ArrowsReplaced(s[1..]);
        if |s| > 1 {
          ReplaceAllHead(s[1..], p, "→");
        }
        assert ReplaceAll(s, p, "→") == [s[0]] + x;
      }
    }
  }

  /** A text with no match at any position is left alone. */
  lemma {:induction false} ReplaceAllNoMatch(s: string, p: string, r: string)
    requires |p| > 0
    requires forall i :: 0 <= i < |s| ==> !StartsWith(s[i..], p)
    ensures ReplaceAll(s, p, r) == s
    decreases |s|
  {
    if |s| > 0 {
      assert !StartsWith(s[0..], p);
      assert forall i :: 0 <= i < |s| - 1 ==> s[1..][i..] == s[i + 1..];
      ReplaceAllNoMatch(s[1..], p, r);
      assert s == [s[0]] + s[1..];
    }
  }

  lemma NoIffAlias(t: string)
    requires NoArrow(t)
    ensures forall i :: 0 <= i < |t| ==> !StartsWith(t[i..], "<->")
  {
    forall i | 0 <= i < |t|
      ensures !StartsWith(t[i..], "<->")
    {
      if i + 3 <= |t| {
        assert t[i..][1] == t[i + 1] && t[i..][2] == t[i + 2];
      }
    }
  }

  /** The `<->` entry never fires: by its turn every `->` is gone, so the
      three-character alias of `↔` is dead and `p<->q` ends up as `p<→q`. */
  lemma IffEntryDead(s: string)
    ensures Rewrite(s) == ReplaceAll(ReplaceAll(RewriteWith(s, Entries[..9]), "->", "→"), "↔", "↔")
  {
    EntriesWellFormed();
    var t := ReplaceAll(RewriteWith(s, Entries[..9]), "->", "→");
    ArrowsReplaced(RewriteWith(s, Entries[..9]));
    ReplaceAllUnchanged(t, "↔", "↔");
    NoIffAlias(t);
    ReplaceAllNoMatch(t, "<->", "↔");
    RewriteSplit(s, Entries, 9);
    assert Entries[9..] == [("->", "→"), ("↔", "↔"), ("<->", "↔")];
  }

  lemma ArrowBeforeIff()
    ensures Rewrite("p<->q") == "p<→q"
  {
    var s := "p<->q";
    EntriesWellFormed();
    FreeOfEntries(s, Entries[..9]);
    assert ReplaceAll("q", "->", "→") == "q";
    assert ReplaceAll(">q", "->", "→") == ">q";
    assert ReplaceAll("->q", "->", "→") == "→q";
    assert ReplaceAll("<->q", "->", "→") == "<→q";
    assert ReplaceAll(s, "->", "→") == "p<→q";
    ReplaceAllUnchanged("p<→q", "↔", "↔");
    IffEntryDead(s);
  }

  /** Running the entries is running a prefix of them, then the rest. */
  lemma {:induction false} RewriteSplit(s: string, es: seq<(string, string)>, k: nat)
    requires forall j :: 0 <= j < |es| ==> |es[j].0| > 0
    requires k <= |es|
    ensures RewriteWith(s, es) == RewriteWith(RewriteWith(s, es[..k]), es[k..])
    decreases k
  {
    if k > 0 {
      assert es[..k][1..] == es[1..][..k - 1];
      assert es[k..] == es[1..][k - 1..];
      RewriteSplit(ReplaceAll(s, es[0].0, es[0].1), es[1..], k - 1);
    }
  }
}
