/** String helpers shared by the URL templating: first-occurrence search and
    replacement (JavaScript `String.prototype.replace` with a string pattern)
    and decimal formatting of natural numbers (`String(n)`). */
module Strings {
  import opened Wrappers

  ghost predicate OccursAt(s: string, pat: string, i: int) {
    0 <= i && i + |pat| <= |s| && s[i..i + |pat|] == pat
  }

  ghost predicate Occurs(s: string, pat: string) {
    exists i :: OccursAt(s, pat, i)
  }

  /** The lowest index at or after `from` where `pat` occurs. */
  function FindFrom(s: string, pat: string, from: nat): (r: Option<nat>)
    requires from <= |s|
    ensures r.Some? ==> from <= r.value && OccursAt(s, pat, r.value)
    ensures r.Some? ==> forall j | from <= j < r.value :: !OccursAt(s, pat, j)
    ensures r.None? ==> forall j | from <= j :: !OccursAt(s, pat, j)
    decreases |s| - from
  {
    if from + |pat| > |s| then None
    else if s[from..from + |pat|] == pat then Some(from)
    else if from == |s| then None
    else FindFrom(s, pat, from + 1)
  }

  /** JavaScript `s.replace(pat, rep)` with a string pattern: only the first
      occurrence is replaced. `rep` is copied literally; JavaScript would
      expand `$&`, `$1` and `$$` in it, which cannot occur here, since every
      substitute is a decimal coordinate. */
  function ReplaceFirst(s: string, pat: string, rep: string): (r: string)
    ensures !Occurs(s, pat) ==> r == s
    ensures Occurs(s, pat) ==>
              (exists i :: OccursAt(s, pat, i) &&
                 (forall j | 0 <= j < i :: !OccursAt(s, pat, j)) &&
                 r == s[..i] + rep + s[i + |pat|..])
  {
    match FindFrom(s, pat, 0)
    case None => s
    case Some(i) => s[..i] + rep + s[i + |pat|..]
  }

  /** Decimal digits of a natural number, as `String(n)` writes it. */
  function NatToString(n: nat): (r: string)
    ensures |r| > 0
    ensures forall k | 0 <= k < |r| :: '0' <= r[k] <= '9'
    decreases n
  {
    var d := [(('0' as int) + n % 10) as char];
    if n < 10 then d else NatToString(n / 10) + d
  }

  /** The number a run of decimal digits spells, read from the left. */
  function DigitsValue(s: string): nat
    requires forall k | 0 <= k < |s| :: '0' <= s[k] <= '9'
    decreases |s|
  {
    if |s| == 0 then 0 else 10 * DigitsValue(s[..|s| - 1]) + (s[|s| - 1] as int - '0' as int)
  }

  /** The digits spell `n`, with no leading zero except for zero itself. */
  lemma {:induction false} NatToStringValue(n: nat)
    ensures DigitsValue(NatToString(n)) == n
    ensures NatToString(n)[0] == '0' <==> n == 0
    ensures n == 0 ==> NatToString(n) == "0"
    decreases n
  {
    var d := [(('0' as int) + n % 10) as char];
    if n >= 10 {
      var hi := NatToString(n / 10);
      NatToStringValue(n / 10);
      var r := hi + d;
      assert r == NatToString(n);
      assert r[..|r| - 1] == hi;
      assert r[0] == hi[0];
    }
  }

  /** Digits contain no `{`, so no placeholder can appear inside a substituted coordinate. */
  lemma DigitsHaveNoBrace(n: nat)
    ensures NoOpenBraceIn(NatToString(n))
  {
  }

  lemma NoOpenBraceConcat(s: string, t: string)
    requires NoOpenBraceIn(s) && NoOpenBraceIn(t)
    ensures NoOpenBraceIn(s + t)
  {
    forall k | 0 <= k < |s + t| ensures (s + t)[k] != '{' {
      if k < |s| { assert (s + t)[k] == s[k]; } else { assert (s + t)[k] == t[k - |s|]; }
    }
  }

  predicate NoOpenBraceIn(s: string) {
    forall k | 0 <= k < |s| :: s[k] != '{'
  }

  /** The search finds an occurrence that has none before it. */
  lemma FindFirstOccurrence(s: string, pat: string, p: nat)
    requires OccursAt(s, pat, p)
    requires forall j | 0 <= j < p :: !OccursAt(s, pat, j)
    ensures FindFrom(s, pat, 0) == Some(p)
  {
    var r := FindFrom(s, pat, 0);
    assert r.Some?;
  }

  /** A pattern starting with `{` first occurs right after a brace-free prefix. */
  lemma ReplaceAfterBraceFree(pre: string, pat: string, post: string, rep: string)
    requires NoOpenBraceIn(pre) && |pat| > 0 && pat[0] == '{'
    ensures ReplaceFirst(pre + pat + post, pat, rep) == pre + rep + post
  {
    var s := pre + pat + post;
    assert s[|pre|..|pre| + |pat|] == pat;
    forall j | 0 <= j < |pre| ensures !OccursAt(s, pat, j) {
      assert s[j] == pre[j];
    }
    FindFirstOccurrence(s, pat, |pre|);
    assert s[..|pre|] == pre;
    assert s[|pre| + |pat|..] == post;
  }

  /** Three first-occurrence replacements in turn, each pattern starting with
      `{` and preceded only by brace-free text (the earlier substitutes included). */
  lemma {:induction false} ReplaceInTurn(a: string, px: string, b: string, py: string, c: string, pz: string, d: string,
                                         xs: string, ys: string, zs: string)
    requires |px| > 0 && px[0] == '{' && |py| > 0 && py[0] == '{' && |pz| > 0 && pz[0] == '{'
    requires NoOpenBraceIn(a) && NoOpenBraceIn(b) && NoOpenBraceIn(c)
    requires NoOpenBraceIn(xs) && NoOpenBraceIn(ys)
    ensures ReplaceFirst(ReplaceFirst(ReplaceFirst(a + px + b + py + c + pz + d, px, xs), py, ys), pz, zs)
            == a + xs + b + ys + c + zs + d
  {
    var r2 := c + pz + d;
    var r1 := b + py + r2;
    var p2 := a + xs + b;
    var p3 := p2 + ys + c;
    assert a + px + b + py + c + pz + d == a + px + r1;
    assert a + xs + r1 == p2 + py + r2;
    assert p2 + ys + r2 == p3 + pz + d;
    assert p3 + zs + d == a + xs + b + ys + c + zs + d;
    NoOpenBraceConcat(a, xs);
    NoOpenBraceConcat(a + xs, b);
    NoOpenBraceConcat(p2, ys);
    NoOpenBraceConcat(p2 + ys, c);
    ReplaceAfterBraceFree(a, px, r1, xs);
    ReplaceAfterBraceFree(p2, py, r2, ys);
    ReplaceAfterBraceFree(p3, pz, d, zs);
  }
}
