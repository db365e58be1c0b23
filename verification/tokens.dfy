/** `{token}` substitution in label text (`resolveTokens` in
    Source/style/StyleLayerProperties.js): the global pattern `{([^{}]+)}` is
    replaced in one left-to-right pass by the string form of the named
    property, or by the empty string when the property is missing. */
module Tokens {
  import opened Wrappers
  import opened Strings

  predicate IsBrace(c: char) {
    c == '{' || c == '}'
  }

  /** A token occupies `s[i..j+1]`: `{`, at least one non-brace character, `}`. */
  ghost predicate TokenAt(s: string, i: int, j: int) {
    0 <= i && i + 1 < j < |s| && s[i] == '{' && s[j] == '}' &&
    forall k | i < k < j :: !IsBrace(s[k])
  }

  ghost predicate HasToken(s: string) {
    exists i, j :: TokenAt(s, i, j)
  }

  /** A key the pattern can capture: non-empty, without braces. */
  predicate IsKey(k: string) {
    |k| > 0 && forall i | 0 <= i < |k| :: !IsBrace(k[i])
  }

  /** The first brace at or after `i`, or `|s|` when there is none. */
  function NextBrace(s: string, i: nat): (r: nat)
    requires i <= |s|
    ensures i <= r <= |s|
    ensures forall k | i <= k < r :: !IsBrace(s[k])
    ensures r < |s| ==> IsBrace(s[r])
    decreases |s| - i
  {
    if i == |s| then i
    else if IsBrace(s[i]) then i
    else NextBrace(s, i + 1)
  }

  /** The replacement for a captured key: `String(properties[key])` when the
      key is present, `''` when it is missing or `properties` is null. */
  function Lookup(properties: Option<map<string, string>>, key: string): string {
    if properties.Some? && key in properties.value then properties.value[key] else ""
  }

  /** `resolveTokens(properties, text)`. */
  function ResolveTokens(properties: Option<map<string, string>>, text: string): string
    decreases |text|
  {
    if |text| == 0 then ""
    else if text[0] == '{' then
      var j := NextBrace(text, 1);
      if j < |text| && text[j] == '}' && j > 1 then
        Lookup(properties, text[1..j]) + ResolveTokens(properties, text[j + 1..])
      else
        [text[0]] + ResolveTokens(properties, text[1..])
    else
      [text[0]] + ResolveTokens(properties, text[1..])
  }

  lemma TokenShift(s: string, i: int, j: int)
    requires |s| > 0 && TokenAt(s[1..], i, j)
    ensures TokenAt(s, i + 1, j + 1)
  {
    forall k | i + 1 < k < j + 1 ensures !IsBrace(s[k]) {
      assert s[k] == s[1..][k - 1];
    }
  }

  /** Text without a token comes back unchanged. */
  lemma {:induction false} NoTokenUnchanged(properties: Option<map<string, string>>, text: string)
    requires !HasToken(text)
    ensures ResolveTokens(properties, text) == text
    decreases |text|
  {
    if |text| == 0 {
    } else {
      var rest := text[1..];
      assert !HasToken(rest) by {
        if HasToken(rest) {
          var i, j :| TokenAt(rest, i, j);
          TokenShift(text, i, j);
        }
      }
      if text[0] == '{' {
        var j := NextBrace(text, 1);
        if j < |text| && text[j] == '}' && j > 1 {
          assert TokenAt(text, 0, j);
          assert false;
        }
      }
      NoTokenUnchanged(properties, rest);
      assert text == [text[0]] + rest;
    }
  }

  /** A leading token is replaced by its value, which is not rescanned; the
      scan resumes right after the closing brace. */
  lemma LeadingToken(properties: Option<map<string, string>>, key: string, rest: string)
    requires IsKey(key)
    ensures ResolveTokens(properties, "{" + key + "}" + rest)
            == Lookup(properties, key) + ResolveTokens(properties, rest)
  {
    var t := "{" + key + "}" + rest;
    var j := NextBrace(t, 1);
    assert forall k | 1 <= k < |key| + 1 :: t[k] == key[k - 1];
    assert t[|key| + 1] == '}';
    assert j == |key| + 1;
    assert t[1..j] == key;
    assert t[j + 1..] == rest;
  }

  /** A literal stretch without `{` is copied as it is. */
  lemma {:induction false} LiteralCopied(properties: Option<map<string, string>>, lit: string, s: string)
    requires NoOpenBraceIn(lit)
    ensures ResolveTokens(properties, lit + s) == lit + ResolveTokens(properties, s)
    decreases |lit|
  {
    if |lit| > 0 {
      var t := lit + s;
      assert t[0] == lit[0] && t[0] != '{';
      assert ResolveTokens(properties, t) == [t[0]] + ResolveTokens(properties, t[1..]);
      assert t[1..] == lit[1..] + s;
      LiteralCopied(properties, lit[1..], s);
      var r := ResolveTokens(properties, s);
      assert [lit[0]] + (lit[1..] + r) == ([lit[0]] + lit[1..]) + r;
      assert lit == [lit[0]] + lit[1..];
    } else {
      assert lit + s == s;
    }
  }

  /** Substitution proceeds left to right: a literal stretch without `{` is
      copied, then the first token is replaced, then the remainder is resolved. */
  lemma LiteralThenToken(properties: Option<map<string, string>>, lit: string, key: string, rest: string)
    requires NoOpenBraceIn(lit) && IsKey(key)
    ensures ResolveTokens(properties, lit + "{" + key + "}" + rest)
            == lit + Lookup(properties, key) + ResolveTokens(properties, rest)
  {
    var tok := "{" + key + "}" + rest;
    assert lit + "{" + key + "}" + rest == lit + tok;
    LiteralCopied(properties, lit, tok);
    LeadingToken(properties, key, rest);
  }

  /** `{}` is not a token: both braces stay literal. */
  lemma EmptyBracesLiteral(properties: Option<map<string, string>>, rest: string)
    ensures ResolveTokens(properties, "{}" + rest) == "{}" + ResolveTokens(properties, rest)
  {
    var t := "{}" + rest;
    assert NextBrace(t, 1) == 1;
    assert t[1..] == "}" + rest;
    assert ("}" + rest)[1..] == rest;
  }

  /** In `{{k}}` only the inner braces form a token; the outer ones stay. */
  lemma DoubleBracesKeepOuter(properties: Option<map<string, string>>, key: string)
    requires IsKey(key)
    ensures ResolveTokens(properties, "{{" + key + "}}") == "{" + Lookup(properties, key) + "}"
  {
    var t := "{{" + key + "}}";
    assert NextBrace(t, 1) == 1;
    assert t[1..] == "{" + key + "}" + "}";
    LeadingToken(properties, key, "}");
    var u := "}";
    assert ResolveTokens(properties, u) == "}" by {
      assert u[1..] == "";
    }
  }

  /** With `properties` null, every token becomes the empty string. */
  lemma NullPropertiesEraseTokens(key: string, rest: string)
    requires IsKey(key)
    ensures ResolveTokens(None, "{" + key + "}" + rest) == ResolveTokens(None, rest)
  {
    LeadingToken(None, key, rest);
  }
}
