/**
 * The simple pass of envsubst.py: `_simple_re.sub(_repl_simple_env_var(...), s)`
 * with `_simple_re` = `(?<!\\)\$([A-Za-z0-9_]+)` (lines 35, 50-57). The regex
 * engine is replaced by a scanner that cuts the string, left to right, into
 * copied characters and matched references, never overlapping.
 */
module SimplePass {
  import opened Options
  import opened Lexical
  import opened Sequences
  import opened Resolve
  import opened AllowList

  /** One step of the scan: a character copied through, or a matched `$NAME`. */
  datatype Piece = Lit(c: char) | Ref(name: string)

  function PieceText(p: Piece): string {
    match p
    case Lit(c) => [c]
    case Ref(name) => "$" + name
  }

  /** The input text the pieces were cut from. */
  function Texts(ps: seq<Piece>): string {
    if ps == [] then [] else PieceText(ps[0]) + Texts(ps[1..])
  }

  predicate AllLiteral(ps: seq<Piece>) {
    forall i :: 0 <= i < |ps| ==> ps[i].Lit?
  }

  /**
   * The pattern `\$([A-Za-z0-9_]+)` anchored at the start of `s`, giving the
   * captured name; the look-behind is decided by the caller.
   */
  function MatchAt(s: string): Option<string> {
    if |s| >= 2 && s[0] == '$' && IsNameChar(s[1]) then Some(NameRun(s[1..])) else None
  }

  /** What is matched is `$` and a name that cannot be extended. */
  lemma MatchAtSound(s: string)
    ensures MatchAt(s).Some? ==> IsName(MatchAt(s).value) && "$" + MatchAt(s).value <= s
    ensures MatchAt(s).Some? ==> |s| == |MatchAt(s).value| + 1 || !IsNameChar(s[|MatchAt(s).value| + 1])
  {
    if MatchAt(s).Some? {
      var name := NameRun(s[1..]);
      NameRunSound(s[1..]);
      assert name[0] == s[1];
      assert "$" + name <= s;
    }
  }

  /** Every `$NAME` with a maximal name at the start of `s` is the match found there. */
  lemma MatchAtComplete(s: string, name: string)
    requires IsName(name) && "$" + name <= s
    requires |s| == |name| + 1 || !IsNameChar(s[|name| + 1])
    ensures MatchAt(s) == Some(name)
  {
    assert s[1] == name[0];
    assert name <= s[1..];
    NameRunUnique(s[1..], name);
  }

  /** The reference the scan cuts at the start of `s`: none right after a backslash. */
  function Cut(s: string, escaped: bool): Option<string> {
    if escaped then None else MatchAt(s)
  }

  /**
   * The scan `re.sub` performs: where the pattern matches, a reference is cut
   * and the scan resumes after it; elsewhere one character is copied.
   * `escaped` says whether the character before `s` is a backslash, which is
   * what `(?<!\\)` inspects.
   */
  function Scan(s: string, escaped: bool): seq<Piece>
    decreases |s|
  {
    if s == [] then []
    else if Cut(s, escaped).Some? then
      var name := Cut(s, escaped).value;
      [Ref(name)] + Scan(s[|name| + 1..], false)
    else
      [Lit(s[0])] + Scan(s[1..], s[0] == '\\')
  }

  /** The pieces spell out the scanned text again: nothing is lost, nothing overlaps. */
  lemma {:induction false} ScanRoundTrip(s: string, escaped: bool)
    ensures Texts(Scan(s, escaped)) == s
    decreases |s|
  {
    if s != [] {
      var ps := Scan(s, escaped);
      match Cut(s, escaped)
      case Some(name) =>
        var k := |name| + 1;
        MatchAtSound(s);
        ScanRoundTrip(s[k..], false);
        assert ps[1..] == Scan(s[k..], false);
        assert s == "$" + name + s[k..];
      case None =>
        ScanRoundTrip(s[1..], s[0] == '\\');
        assert ps[1..] == Scan(s[1..], s[0] == '\\');
        assert s == [s[0]] + s[1..];
    }
  }

  /**
   * `_repl_simple_env_var`: the resolved value, or "" when unset, for a
   * permitted name; the matched text itself for an excluded one.
   */
  function Replacement(src: Sources, allow: Option<seq<string>>, name: string): string {
    if Permits(allow, name) then ResolveOr(src, name, "") else "$" + name
  }

  function PieceOutput(src: Sources, allow: Option<seq<string>>, p: Piece): string {
    match p
    case Lit(c) => [c]
    case Ref(name) => Replacement(src, allow, name)
  }

  function Render(src: Sources, allow: Option<seq<string>>, ps: seq<Piece>): string {
    if ps == [] then [] else PieceOutput(src, allow, ps[0]) + Render(src, allow, ps[1..])
  }

  /** The whole simple pass over `s`. */
  function Substitute(src: Sources, allow: Option<seq<string>>, s: string): string {
    Render(src, allow, Scan(s, false))
  }

  lemma {:induction false} RenderAppend(src: Sources, allow: Option<seq<string>>, ps: seq<Piece>, qs: seq<Piece>)
    ensures Render(src, allow, ps + qs) == Render(src, allow, ps) + Render(src, allow, qs)
    decreases |ps|
  {
    if ps == [] {
      assert ps + qs == qs;
    } else {
      assert (ps + qs)[1..] == ps[1..] + qs;
      RenderAppend(src, allow, ps[1..], qs);
    }
  }

  /** Copied characters render as themselves. */
  lemma {:induction false} RenderLiteral(src: Sources, allow: Option<seq<string>>, ps: seq<Piece>)
    requires AllLiteral(ps)
    ensures Render(src, allow, ps) == Texts(ps)
    decreases |ps|
  {
    if ps != [] {
      RenderLiteral(src, allow, ps[1..]);
    }
  }

  /** When every `$` follows a backslash the scan finds no reference at all. */
  lemma {:induction false} ScanEscapedIsLiteral(s: string, escaped: bool)
    requires DollarsEscaped(s, escaped)
    ensures AllLiteral(Scan(s, escaped))
    decreases |s|
  {
    if s != [] {
      if s[0] == '$' {
        assert AfterBackslash(s, escaped, 0);
      }
      assert Cut(s, escaped).None?;
      DollarsEscapedTail(s, escaped);
      ScanEscapedIsLiteral(s[1..], s[0] == '\\');
      assert Scan(s, escaped) == [Lit(s[0])] + Scan(s[1..], s[0] == '\\');
    }
  }

  /**
   * A `$` right after a backslash never starts a reference, so text whose
   * every `$` is escaped comes out of the pass unchanged, backslashes kept,
   * whatever the allow-list.
   */
  lemma EscapedUnchanged(src: Sources, allow: Option<seq<string>>, s: string)
    requires DollarsEscaped(s, false)
    ensures Substitute(src, allow, s) == s
  {
    ScanEscapedIsLiteral(s, false);
    RenderLiteral(src, allow, Scan(s, false));
    ScanRoundTrip(s, false);
  }

  /** Copying the first character when no reference starts there. */
  lemma ScanCopies(s: string, escaped: bool)
    requires s != [] && Cut(s, escaped).None?
    ensures Scan(s, escaped) == [Lit(s[0])] + Scan(s[1..], s[0] == '\\')
  {
  }

  /** Cutting a reference at the start of `s`. */
  lemma ScanCuts(s: string, escaped: bool, name: string)
    requires Cut(s, escaped) == Some(name)
    ensures |name| + 1 <= |s|
    ensures Scan(s, escaped) == [Ref(name)] + Scan(s[|name| + 1..], false)
  {
    MatchAtSound(s);
  }

  /** Text without `$` is cut into copied characters only, and the scan after it goes on unaffected. */
  lemma {:induction false} ScanAfterPlainText(a: string, b: string, escaped: bool)
    requires '$' !in a
    ensures Scan(a + b, escaped) == Scan(a, escaped) + Scan(b, EndsWithBackslash(a, escaped))
    ensures AllLiteral(Scan(a, escaped))
    decreases |a|
  {
    if a == [] {
      assert a + b == b;
    } else {
      var s := a + b;
      assert s[0] == a[0];
      assert s[1..] == a[1..] + b;
      assert Cut(s, escaped).None? && Cut(a, escaped).None?;
      var e := a[0] == '\\';
      assert EndsWithBackslash(a[1..], e) == EndsWithBackslash(a, escaped);
      ScanAfterPlainText(a[1..], b, e);
      ScanCopies(s, escaped);
      ScanCopies(a, escaped);
      ConsAssoc(Lit(a[0]), Scan(a[1..], e), Scan(b, EndsWithBackslash(a, escaped)));
    }
  }

  /**
   * What may follow `a` without changing how `a` is scanned: `b` does not
   * continue a name, or `a` ends on a character that is neither `$` nor a
   * name character, so no reference begun in `a` can reach into `b`.
   */
  predicate Separable(a: string, b: string) {
    || a == []
    || b == []
    || !IsNameChar(b[0])
    || (!IsNameChar(a[|a| - 1]) && a[|a| - 1] != '$')
  }

  lemma SeparableSuffix(a: string, b: string, k: nat)
    requires Separable(a, b) && k <= |a|
    ensures Separable(a[k..], b)
  {
    if a[k..] != [] {
      assert a[k..][|a[k..]| - 1] == a[|a| - 1];
    }
  }

  /** A separable following text cannot change what is cut at the start. */
  lemma CutAppend(a: string, b: string, escaped: bool)
    requires a != [] && Separable(a, b)
    ensures Cut(a + b, escaped) == Cut(a, escaped)
  {
    var s := a + b;
    if !escaped && |a| >= 2 && a[0] == '$' && IsNameChar(a[1]) {
      assert s[0] == '$' && s[1] == a[1];
      assert s[1..] == a[1..] + b;
      if b == [] || !IsNameChar(b[0]) {
        NameRunAppend(a[1..], b);
      } else {
        assert a[1..][|a[1..]| - 1] == a[|a| - 1];
        NameRunStops(a[1..], b);
      }
    } else if !escaped && |a| == 1 && a[0] == '$' {
      assert s[0] == '$';
      assert |s| >= 2 ==> s[1] == b[0];
    } else if !escaped {
      assert s[0] == a[0];
      assert |a| >= 2 ==> s[1] == a[1];
    }
  }

  /**
   * Matches never straddle a separable boundary: scanning `a + b` is
   * scanning `a`, then `b` with the look-behind `a` leaves.
   */
  lemma {:induction false} ScanAppend(a: string, b: string, escaped: bool)
    requires Separable(a, b)
    ensures Scan(a + b, escaped) == Scan(a, escaped) + Scan(b, EndsWithBackslash(a, escaped))
    decreases |a|, 1
  {
    if a == [] {
      assert a + b == b;
    } else if Cut(a, escaped).Some? {
      ScanAppendAfterCut(a, b, escaped, Cut(a, escaped).value);
    } else {
      ScanAppendAfterCopy(a, b, escaped);
    }
  }

  lemma {:induction false} ScanAppendAfterCut(a: string, b: string, escaped: bool, name: string)
    requires Separable(a, b)
    requires a != [] && Cut(a, escaped) == Some(name)
    ensures Scan(a + b, escaped) == Scan(a, escaped) + Scan(b, EndsWithBackslash(a, escaped))
    decreases |a|, 0
  {
    var k := |name| + 1;
    var tail := EndsWithBackslash(a, escaped);
    CutThenAppend(a, b, escaped, name);
    SeparableSuffix(a, b, k);
    ScanAppend(a[k..], b, false);
    ScanCuts(a, escaped, name);
    ConsAssoc(Ref(name), Scan(a[k..], false), Scan(b, tail));
  }

  /** After a cut the scan of `a + b` goes on with the rest of `a` followed by `b`. */
  lemma CutThenAppend(a: string, b: string, escaped: bool, name: string)
    requires Separable(a, b)
    requires a != [] && Cut(a, escaped) == Some(name)
    ensures |name| + 1 <= |a|
    ensures Scan(a + b, escaped) == [Ref(name)] + Scan(a[|name| + 1..] + b, false)
    ensures EndsWithBackslash(a[|name| + 1..], false) == EndsWithBackslash(a, escaped)
  {
    var k := |name| + 1;
    ScanCuts(a, escaped, name);
    CutAppend(a, b, escaped);
    ScanCuts(a + b, escaped, name);
    DropAppend(a, b, k);
    CutEndsWithName(a, escaped, name);
  }

  /** A cut reference ends with a name character, never with a backslash. */
  lemma CutEndsWithName(a: string, escaped: bool, name: string)
    requires Cut(a, escaped) == Some(name)
    ensures |name| + 1 <= |a|
    ensures EndsWithBackslash(a[|name| + 1..], false) == EndsWithBackslash(a, escaped)
  {
    var k := |name| + 1;
    MatchAtSound(a);
    assert a[k - 1] == name[|name| - 1];
    EndsAfter(a, k, escaped);
  }

  lemma {:induction false} ScanAppendAfterCopy(a: string, b: string, escaped: bool)
    requires Separable(a, b)
    requires a != [] && Cut(a, escaped).None?
    ensures Scan(a + b, escaped) == Scan(a, escaped) + Scan(b, EndsWithBackslash(a, escaped))
    decreases |a|, 0
  {
    var tail := EndsWithBackslash(a, escaped);
    var e := a[0] == '\\';
    CutAppend(a, b, escaped);
    ScanCopies(a + b, escaped);
    assert (a + b)[0] == a[0];
    assert (a + b)[1..] == a[1..] + b;
    assert EndsWithBackslash(a[1..], e) == tail;
    SeparableSuffix(a, b, 1);
    ScanAppend(a[1..], b, e);
    ScanCopies(a, escaped);
    ConsAssoc(Lit(a[0]), Scan(a[1..], e), Scan(b, tail));
  }

  /**
   * References resolve independently: the pass over `a + b` is the pass over
   * `a` followed by the pass over `b`, when `a` does not end in a backslash
   * and no reference begun in `a` can reach into `b`.
   */
  lemma SubstituteAppend(src: Sources, allow: Option<seq<string>>, a: string, b: string)
    requires !EndsWithBackslash(a, false)
    requires Separable(a, b)
    ensures Substitute(src, allow, a + b) == Substitute(src, allow, a) + Substitute(src, allow, b)
  {
    ScanAppend(a, b, false);
    RenderAppend(src, allow, Scan(a, false), Scan(b, false));
  }

  /** Text without `$` that does not end in a backslash passes through and leaves the rest alone. */
  lemma SubstituteAfterPlainText(src: Sources, allow: Option<seq<string>>, a: string, b: string)
    requires '$' !in a
    requires a == [] || a[|a| - 1] != '\\'
    ensures Substitute(src, allow, a + b) == a + Substitute(src, allow, b)
  {
    ScanAfterPlainText(a, b, false);
    RenderAppend(src, allow, Scan(a, false), Scan(b, false));
    RenderLiteral(src, allow, Scan(a, false));
    ScanRoundTrip(a, false);
  }

  /** A lone `$NAME` becomes its replacement. */
  lemma SingleReference(src: Sources, allow: Option<seq<string>>, name: string)
    requires IsName(name)
    ensures Substitute(src, allow, "$" + name) == Replacement(src, allow, name)
  {
    var s := "$" + name;
    MatchAtComplete(s, name);
    ScanCuts(s, false, name);
    assert s[|name| + 1..] == [];
    assert Scan(s, false) == [Ref(name)];
    assert Render(src, allow, [Ref(name)]) == Replacement(src, allow, name) + Render(src, allow, []);
  }

  /** A `$` followed by `{` is copied, and the scan resumes right after the brace. */
  lemma DollarBrace(src: Sources, allow: Option<seq<string>>, u: string)
    ensures Substitute(src, allow, "${" + u) == "${" + Substitute(src, allow, u)
  {
    var s := "${" + u;
    assert s[0] == '$' && s[1] == '{';
    ScanCopies(s, false);
    assert s[1..] == "{" + u;
    ScanAfterPlainText("{", u, false);
    assert Scan("{", false) == [Lit('{')] by {
      assert "{"[1..] == [];
    }
    assert Scan(s, false) == [Lit('$'), Lit('{')] + Scan(u, false);
    RenderAppend(src, allow, [Lit('$'), Lit('{')], Scan(u, false));
    assert Render(src, allow, [Lit('$'), Lit('{')]) == "${";
  }

  /** Text without `$` comes out of the pass unchanged. */
  lemma NoDollarUnchanged(src: Sources, allow: Option<seq<string>>, s: string)
    requires '$' !in s
    ensures Substitute(src, allow, s) == s
  {
    assert DollarsEscaped(s, false);
    EscapedUnchanged(src, allow, s);
  }

  /**
   * Text without `$` that does not start with a name character passes
   * through after any text, and leaves the pass over that text alone.
   */
  lemma SubstituteBeforePlainText(src: Sources, allow: Option<seq<string>>, a: string, b: string)
    requires '$' !in b
    requires b == [] || !IsNameChar(b[0])
    ensures Substitute(src, allow, a + b) == Substitute(src, allow, a) + b
  {
    var e := EndsWithBackslash(a, false);
    ScanAppend(a, b, false);
    RenderAppend(src, allow, Scan(a, false), Scan(b, e));
    ScanAfterPlainText(b, [], e);
    assert b + [] == b;
    RenderLiteral(src, allow, Scan(b, e));
    ScanRoundTrip(b, e);
  }
}
