/**
 * The lexical pieces both reference patterns of envsubst.py share: the name
 * class `[A-Za-z0-9_]`, its greedy run, and the `(?<!\\)` look-behind that
 * stops a `$` right after a backslash from starting a reference.
 */
module Lexical {

  predicate IsNameChar(c: char) {
    || ('A' <= c <= 'Z')
    || ('a' <= c <= 'z')
    || ('0' <= c <= '9')
    || c == '_'
  }

  /** A whole variable name: one or more name characters. */
  predicate IsName(s: string) {
    |s| > 0 && forall i :: 0 <= i < |s| ==> IsNameChar(s[i])
  }

  /**
   * The longest prefix of `s` made of name characters: what the greedy
   * `[A-Za-z0-9_]+` consumes when it starts at the beginning of `s`.
   */
  function NameRun(s: string): (r: string)
    ensures |r| <= |s|
  {
    if |s| > 0 && IsNameChar(s[0]) then [s[0]] + NameRun(s[1..]) else []
  }

  /** The run is a prefix of name characters that cannot be extended. */
  lemma {:induction false} NameRunSound(s: string)
    ensures NameRun(s) <= s
    ensures forall i :: 0 <= i < |NameRun(s)| ==> IsNameChar(NameRun(s)[i])
    ensures |NameRun(s)| == |s| || !IsNameChar(s[|NameRun(s)|])
  {
    if |s| > 0 && IsNameChar(s[0]) {
      NameRunSound(s[1..]);
      assert NameRun(s) == [s[0]] + NameRun(s[1..]);
    }
  }

  /** A prefix of name characters that cannot be extended is the run itself. */
  lemma {:induction false} NameRunUnique(s: string, r: string)
    requires r <= s
    requires forall i :: 0 <= i < |r| ==> IsNameChar(r[i])
    requires |r| == |s| || !IsNameChar(s[|r|])
    ensures NameRun(s) == r
  {
    if r != [] {
      assert s[0] == r[0];
      assert r[1..] <= s[1..];
      NameRunUnique(s[1..], r[1..]);
    } else {
      assert s == [] || !IsNameChar(s[0]);
    }
  }

  lemma NameRunOfName(n: string)
    requires IsName(n)
    ensures NameRun(n) == n
  {
    NameRunUnique(n, n);
  }

  /** Text that does not start with a name character cannot lengthen a run. */
  lemma NameRunAppend(a: string, b: string)
    requires b == [] || !IsNameChar(b[0])
    ensures NameRun(a + b) == NameRun(a)
  {
    var r := NameRun(a);
    NameRunSound(a);
    assert r <= a + b;
    if |r| < |a| {
      assert (a + b)[|r|] == a[|r|];
    }
    NameRunUnique(a + b, r);
  }

  /** A run cannot get past a last character that is not a name character, whatever follows. */
  lemma NameRunStops(a: string, b: string)
    requires a != [] && !IsNameChar(a[|a| - 1])
    ensures NameRun(a + b) == NameRun(a)
  {
    var r := NameRun(a);
    NameRunSound(a);
    assert forall c :: c in r ==> IsNameChar(c);
    assert a[|a| - 1] in a;
    assert r != a;
    assert r <= a + b;
    assert (a + b)[|r|] == a[|r|];
    NameRunUnique(a + b, r);
  }

  /**
   * Whether the character just before what follows `a` is a backslash, where
   * `escaped` says whether the character before `a` itself was one.
   */
  function EndsWithBackslash(a: string, escaped: bool): bool {
    if a == [] then escaped else a[|a| - 1] == '\\'
  }

  /**
   * Whether the character before position `i` of `s` is a backslash, where
   * `escaped` says whether the character before `s` is one.
   */
  predicate AfterBackslash(s: string, escaped: bool, i: nat)
    requires i < |s|
  {
    if i == 0 then escaped else s[i - 1] == '\\'
  }

  /** Every `$` of `s` sits right after a backslash. */
  predicate DollarsEscaped(s: string, escaped: bool) {
    forall i :: 0 <= i < |s| && s[i] == '$' ==> AfterBackslash(s, escaped, i)
  }

  /** Escaped dollars in `a` and in `b` (with the look-behind `a` leaves) stay escaped in `a + b`. */
  lemma DollarsEscapedAppend(a: string, b: string, escaped: bool)
    requires DollarsEscaped(a, escaped)
    requires DollarsEscaped(b, EndsWithBackslash(a, escaped))
    ensures DollarsEscaped(a + b, escaped)
  {
    var s := a + b;
    forall i | 0 <= i < |s| && s[i] == '$'
      ensures AfterBackslash(s, escaped, i)
    {
      if i < |a| {
        assert a[i] == '$' && AfterBackslash(a, escaped, i);
      } else {
        var j := i - |a|;
        assert b[j] == '$' && AfterBackslash(b, EndsWithBackslash(a, escaped), j);
        if j > 0 {
          assert s[i - 1] == b[j - 1];
        } else if a != [] {
          assert s[i - 1] == a[|a| - 1];
        }
      }
    }
  }

  /** Dropping the first character keeps every `$` escaped. */
  lemma DollarsEscapedTail(s: string, escaped: bool)
    requires |s| > 0 && DollarsEscaped(s, escaped)
    ensures DollarsEscaped(s[1..], s[0] == '\\')
  {
    forall i | 0 <= i < |s[1..]| && s[1..][i] == '$'
      ensures AfterBackslash(s[1..], s[0] == '\\', i)
    {
      assert s[i + 1] == '$' && AfterBackslash(s, escaped, i + 1);
    }
  }

  /** Past a non-backslash at `k - 1`, the look-behind at the end of `a` is that of `a[k..]` from a clean start. */
  lemma EndsAfter(a: string, k: nat, escaped: bool)
    requires 0 < k <= |a| && a[k - 1] != '\\'
    ensures EndsWithBackslash(a[k..], false) == EndsWithBackslash(a, escaped)
  {
    if a[k..] != [] {
      assert a[k..][|a[k..]| - 1] == a[|a| - 1];
    }
  }
}
