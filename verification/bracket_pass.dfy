/**
 * The bracketed pass of envsubst.py:
 * `_extended_re.sub(_repl_extended_env_var(...), s)` with `_extended_re` =
 * `(?<!\\)\$\{([A-Za-z0-9_]+)((:?-)([^}]+))?\}` (lines 36, 60-83).
 *
 * The pattern needs no backtracking to decide: a shorter name would leave a
 * name character where `:`, `-` or `}` is required, and `[^}]+` can only stop
 * at the first `}`. So a match is `${`, the maximal name, then either `}` or
 * an operator, a non-empty default running to the first `}`, and that `}`.
 */
module BracketPass {
  import opened Options
  import opened Lexical
  import opened Sequences
  import opened Resolve
  import opened AllowList
  import SimplePass

  /**
   * The operators group 3 can capture. There are only these two, so the
   * `raise RuntimeError` of line 80 has no counterpart here.
   */
  datatype Operator =
    | UnsetOrEmpty  // `:-`: use the default when unset or empty
    | UnsetOnly     // `-`: use the default only when unset

  function OperatorText(op: Operator): string {
    match op
    case UnsetOrEmpty => ":-"
    case UnsetOnly => "-"
  }

  datatype Fallback = Fallback(op: Operator, text: string)

  /** A matched `${NAME}` or `${NAME<op>text}`. */
  datatype Reference = Reference(name: string, fallback: Option<Fallback>)

  function FallbackText(f: Option<Fallback>): string {
    match f
    case None => ""
    case Some(Fallback(op, text)) => OperatorText(op) + text
  }

  /** The text a reference was matched from. */
  function ReferenceText(r: Reference): string {
    "${" + r.name + FallbackText(r.fallback) + "}"
  }

  /** The references the pattern can match: a name, and a non-empty default free of `}`. */
  predicate WellFormed(r: Reference) {
    && IsName(r.name)
    && (r.fallback.Some? ==> r.fallback.value.text != [] && '}' !in r.fallback.value.text)
  }

  /** The longest prefix of `s` without `}`: what `[^}]+` consumes. */
  function UpToBrace(s: string): (r: string)
    ensures |r| <= |s|
  {
    if |s| > 0 && s[0] != '}' then [s[0]] + UpToBrace(s[1..]) else []
  }

  /** The default runs up to the first `}`, or to the end when there is none. */
  lemma {:induction false} UpToBraceSound(s: string)
    ensures UpToBrace(s) <= s && '}' !in UpToBrace(s)
    ensures |UpToBrace(s)| == |s| || s[|UpToBrace(s)|] == '}'
  {
    if |s| > 0 && s[0] != '}' {
      UpToBraceSound(s[1..]);
      assert UpToBrace(s) == [s[0]] + UpToBrace(s[1..]);
    }
  }

  lemma {:induction false} UpToBraceUnique(s: string, r: string)
    requires r <= s && '}' !in r
    requires |r| == |s| || s[|r|] == '}'
    ensures UpToBrace(s) == r
  {
    if r != [] {
      assert s[0] == r[0];
      assert r[1..] <= s[1..];
      UpToBraceUnique(s[1..], r[1..]);
    }
  }

  /** `([^}]+)\}` after the operator: a non-empty default closed by the first `}`. */
  function WithFallback(name: string, op: Operator, s: string): Option<Reference> {
    var text := UpToBrace(s);
    if text != [] && |text| < |s| then Some(Reference(name, Some(Fallback(op, text)))) else None
  }

  /** The pattern anchored at the start of `s`; the look-behind is decided by the caller. */
  function MatchAt(s: string): Option<Reference> {
    if |s| >= 2 && s[0] == '$' && s[1] == '{' then MatchInside(s[2..]) else None
  }

  /** The rest of the pattern on the text after `${`: the maximal name, then `}` or an operator and a default. */
  function MatchInside(t: string): Option<Reference> {
    var name := NameRun(t);
    var rest := t[|name|..];
    if name == [] then None
    else if |rest| > 0 && rest[0] == '}' then Some(Reference(name, None))
    else if |rest| > 1 && rest[0] == ':' && rest[1] == '-' then WithFallback(name, UnsetOrEmpty, rest[2..])
    else if |rest| > 0 && rest[0] == '-' then WithFallback(name, UnsetOnly, rest[1..])
    else None
  }

  lemma WithFallbackSound(name: string, op: Operator, s: string)
    requires WithFallback(name, op, s).Some?
    ensures var r := WithFallback(name, op, s);
      && r.value.name == name
      && r.value.fallback.Some?
      && r.value.fallback.value.op == op
      && r.value.fallback.value.text != []
      && '}' !in r.value.fallback.value.text
      && r.value.fallback.value.text + "}" <= s
  {
    var text := UpToBrace(s);
    UpToBraceSound(s);
    assert s[|text|] == '}';
    PrefixJoin(text, "}", s);
  }

  /** What is matched inside `${` is a well-formed reference spelled out after it. */
  lemma MatchInsideSound(t: string)
    requires MatchInside(t).Some?
    ensures WellFormed(MatchInside(t).value)
    ensures MatchInside(t).value.name + FallbackText(MatchInside(t).value.fallback) + "}" <= t
  {
    var r := MatchInside(t).value;
    var name := NameRun(t);
    NameRunSound(t);
    var rest := t[|name|..];
    RestSound(name, rest, r);
    PrefixJoin(name, FallbackText(r.fallback) + "}", t);
  }

  /** After the name the match reads `}`, or an operator and a default closed by the first `}`. */
  lemma RestSound(name: string, rest: string, r: Reference)
    requires name != []
    requires Some(r) == (
      if |rest| > 0 && rest[0] == '}' then Some(Reference(name, None))
      else if |rest| > 1 && rest[0] == ':' && rest[1] == '-' then WithFallback(name, UnsetOrEmpty, rest[2..])
      else if |rest| > 0 && rest[0] == '-' then WithFallback(name, UnsetOnly, rest[1..])
      else None)
    ensures r.name == name
    ensures r.fallback.Some? ==> r.fallback.value.text != [] && '}' !in r.fallback.value.text
    ensures FallbackText(r.fallback) + "}" <= rest
  {
    if |rest| > 0 && rest[0] == '}' {
      assert FallbackText(r.fallback) + "}" == "}";
    } else {
      var op := r.fallback.value.op;
      var k := |OperatorText(op)|;
      WithFallbackSound(name, op, rest[k..]);
      assert OperatorText(op) <= rest;
      PrefixJoin(OperatorText(op), r.fallback.value.text + "}", rest);
      assert FallbackText(r.fallback) + "}" == OperatorText(op) + (r.fallback.value.text + "}");
    }
  }

  /** What is matched is a well-formed reference spelled out at the start of `s`. */
  lemma MatchAtSound(s: string)
    requires MatchAt(s).Some?
    ensures WellFormed(MatchAt(s).value)
    ensures ReferenceText(MatchAt(s).value) <= s
  {
    var r := MatchAt(s).value;
    MatchInsideSound(s[2..]);
    assert "${" <= s;
    PrefixJoin("${", r.name + FallbackText(r.fallback) + "}", s);
    assert ReferenceText(r) == "${" + (r.name + FallbackText(r.fallback) + "}");
  }

  /** A well-formed reference spelled out after `${` is what the rest of the pattern matches. */
  lemma MatchInsideComplete(t: string, r: Reference)
    requires WellFormed(r) && r.name + FallbackText(r.fallback) + "}" <= t
    ensures MatchInside(t) == Some(r)
  {
    var name := r.name;
    var tail := FallbackText(r.fallback) + "}";
    PrefixSplit(name, tail, t);
    var rest := t[|name|..];
    assert tail[0] == rest[0];
    NameRunUnique(t, name);
    RestComplete(rest, r);
  }

  /** After the name: `}`, or an operator and a default closed by the first `}`. */
  lemma RestComplete(rest: string, r: Reference)
    requires WellFormed(r) && FallbackText(r.fallback) + "}" <= rest
    ensures match r.fallback
      case None => |rest| > 0 && rest[0] == '}'
      case Some(Fallback(UnsetOrEmpty, text)) =>
        |rest| > 1 && rest[0] == ':' && rest[1] == '-' && WithFallback(r.name, UnsetOrEmpty, rest[2..]) == Some(r)
      case Some(Fallback(UnsetOnly, text)) =>
        |rest| > 0 && rest[0] == '-' && WithFallback(r.name, UnsetOnly, rest[1..]) == Some(r)
  {
    match r.fallback
    case None =>
    case Some(Fallback(op, text)) =>
      var k := |OperatorText(op)|;
      assert FallbackText(r.fallback) + "}" == OperatorText(op) + (text + "}");
      PrefixSplit(OperatorText(op), text + "}", rest);
      PrefixSplit(text, "}", rest[k..]);
      UpToBraceUnique(rest[k..], text);
  }

  /** A spelled-out well-formed reference at the start of `s` is the match found there. */
  lemma MatchAtComplete(s: string, r: Reference)
    requires WellFormed(r) && ReferenceText(r) <= s
    ensures MatchAt(s) == Some(r)
  {
    assert ReferenceText(r) == "${" + (r.name + FallbackText(r.fallback) + "}");
    PrefixSplit("${", r.name + FallbackText(r.fallback) + "}", s);
    MatchInsideComplete(s[2..], r);
  }

  /** One step of the scan: a copied character, or a matched reference. */
  datatype Piece = Lit(c: char) | Ref(r: Reference)

  function PieceText(p: Piece): string {
    match p
    case Lit(c) => [c]
    case Ref(r) => ReferenceText(r)
  }

  /** The input text the pieces were cut from. */
  function Texts(ps: seq<Piece>): string {
    if ps == [] then [] else PieceText(ps[0]) + Texts(ps[1..])
  }

  predicate AllLiteral(ps: seq<Piece>) {
    forall i :: 0 <= i < |ps| ==> ps[i].Lit?
  }

  /** The reference the scan cuts at the start of `s`: none right after a backslash. */
  function Cut(s: string, escaped: bool): Option<Reference> {
    if escaped then None else MatchAt(s)
  }

  /**
   * The scan `re.sub` performs with the bracketed pattern: a reference is cut
   * where it matches and the scan resumes after its `}`; elsewhere one
   * character is copied. `escaped` says whether the character before `s` is
   * a backslash.
   */
  function Scan(s: string, escaped: bool): seq<Piece>
    decreases |s|
  {
    if s == [] then []
    else if Cut(s, escaped).Some? then
      var r := Cut(s, escaped).value;
      assert |ReferenceText(r)| <= |s| by {
        MatchAtSound(s);
      }
      [Ref(r)] + Scan(s[|ReferenceText(r)|..], false)
    else
      [Lit(s[0])] + Scan(s[1..], s[0] == '\\')
  }

  lemma ScanCopies(s: string, escaped: bool)
    requires s != [] && Cut(s, escaped).None?
    ensures Scan(s, escaped) == [Lit(s[0])] + Scan(s[1..], s[0] == '\\')
  {
  }

  lemma ScanCuts(s: string, escaped: bool, r: Reference)
    requires Cut(s, escaped) == Some(r)
    ensures WellFormed(r) && ReferenceText(r) <= s
    ensures Scan(s, escaped) == [Ref(r)] + Scan(s[|ReferenceText(r)|..], false)
  {
    MatchAtSound(s);
  }

  /** The pieces spell out the scanned text again: nothing is lost, nothing overlaps. */
  lemma {:induction false} ScanRoundTrip(s: string, escaped: bool)
    ensures Texts(Scan(s, escaped)) == s
    decreases |s|
  {
    if s != [] {
      var ps := Scan(s, escaped);
      match Cut(s, escaped)
      case Some(r) =>
        var k := |ReferenceText(r)|;
        ScanCuts(s, escaped, r);
        ScanRoundTrip(s[k..], false);
        assert ps[1..] == Scan(s[k..], false);
        assert s == ReferenceText(r) + s[k..];
      case None =>
        ScanRoundTrip(s[1..], s[0] == '\\');
        assert ps[1..] == Scan(s[1..], s[0] == '\\');
        assert s == [s[0]] + s[1..];
    }
  }

  /** When every `$` follows a backslash the scan finds no reference at all. */
  lemma {:induction false} ScanEscapedIsLiteral(s: string, escaped: bool)
    requires DollarsEscaped(s, escaped)
    ensures AllLiteral(Scan(s, escaped))
    decreases |s|
  {
    if s != [] {
      if s[0] == '$' {
        assert AfterBackslash(s, escaped, 0);
      }
      assert Cut(s, escaped).None?;
      DollarsEscapedTail(s, escaped);
      ScanEscapedIsLiteral(s[1..], s[0] == '\\');
      ScanCopies(s, escaped);
    }
  }

  /** Text without `$` is cut into copied characters only, and the scan after it goes on unaffected. */
  lemma {:induction false} ScanAfterPlainText(a: string, b: string, escaped: bool)
    requires '$' !in a
    ensures Scan(a + b, escaped) == Scan(a, escaped) + Scan(b, EndsWithBackslash(a, escaped))
    ensures AllLiteral(Scan(a, escaped))
    decreases |a|
  {
    if a == [] {
      assert a + b == b;
    } else {
      var s := a + b;
      assert s[0] == a[0];
      assert s[1..] == a[1..] + b;
      assert Cut(s, escaped).None? && Cut(a, escaped).None?;
      var e := a[0] == '\\';
      assert EndsWithBackslash(a[1..], e) == EndsWithBackslash(a, escaped);
      ScanAfterPlainText(a[1..], b, e);
      ScanCopies(s, escaped);
      ScanCopies(a, escaped);
      ConsAssoc(Lit(a[0]), Scan(a[1..], e), Scan(b, EndsWithBackslash(a, escaped)));
    }
  }

  /** Every `$` in `a` has a `}` after it, so no reference begun in `a` can run past its end. */
  predicate DollarsClosed(a: string) {
    forall i :: 0 <= i < |a| && a[i] == '$' ==> '}' in a[i..]
  }

  /** What may follow `a` without changing how `a` is scanned. */
  predicate Separable(a: string, b: string) {
    '}' !in b || DollarsClosed(a)
  }

  lemma SeparableSuffix(a: string, b: string, k: nat)
    requires k <= |a| && Separable(a, b)
    ensures Separable(a[k..], b)
  {
    if '}' in b {
      forall i | 0 <= i < |a[k..]| && a[k..][i] == '$'
        ensures '}' in a[k..][i..]
      {
        assert a[k + i] == '$';
        assert a[k..][i..] == a[k + i..];
      }
    }
  }

  /** A well-formed reference holds no `}` before its last character. */
  lemma BraceOnlyAtEnd(r: Reference)
    requires WellFormed(r)
    ensures forall i :: 0 <= i < |ReferenceText(r)| - 1 ==> ReferenceText(r)[i] != '}'
  {
    assert forall i :: 0 <= i < |r.name| ==> r.name[i] != '}';
    var f := FallbackText(r.fallback);
    assert forall i :: 0 <= i < |f| ==> f[i] != '}';
    assert ReferenceText(r)[..|ReferenceText(r)| - 1] == "${" + r.name + f;
  }

  /** A match in `a + b` that begins at the start of `a` ends inside `a`. */
  lemma MatchStaysInside(a: string, b: string, r: Reference)
    requires a != [] && Separable(a, b)
    requires MatchAt(a + b) == Some(r)
    ensures WellFormed(r) && ReferenceText(r) <= a
  {
    MatchAtSound(a + b);
    var t := ReferenceText(r);
    assert t[|t| - 1] == '}';
    if '}' !in b {
      assert |t| <= |a|;
    } else {
      assert a[0] == '$';
      var j :| 0 <= j < |a[0..]| && a[0..][j] == '}';
      assert a[j] == '}';
      BraceOnlyAtEnd(r);
      if j < |t| {
        assert t[j] == (a + b)[j];
      }
      assert |t| <= |a|;
    }
  }

  /**
   * A reference needs its closing `}`: text that cannot supply one to a
   * reference begun before it does not change the reference found there.
   */
  lemma CutAppend(a: string, b: string, escaped: bool)
    requires a != [] && Separable(a, b)
    ensures Cut(a + b, escaped) == Cut(a, escaped)
  {
    if !escaped {
      if MatchAt(a).Some? {
        var r := MatchAt(a).value;
        MatchAtSound(a);
        assert a <= a + b;
        MatchAtComplete(a + b, r);
      } else if MatchAt(a + b).Some? {
        var r := MatchAt(a + b).value;
        MatchStaysInside(a, b, r);
        MatchAtComplete(a, r);
      }
    }
  }

  /** After a cut the scan of `a + b` goes on with the rest of `a` followed by `b`. */
  lemma CutThenAppend(a: string, b: string, escaped: bool, r: Reference)
    requires Separable(a, b)
    requires a != [] && Cut(a, escaped) == Some(r)
    ensures |ReferenceText(r)| <= |a|
    ensures Scan(a + b, escaped) == [Ref(r)] + Scan(a[|ReferenceText(r)|..] + b, false)
    ensures EndsWithBackslash(a[|ReferenceText(r)|..], false) == EndsWithBackslash(a, escaped)
  {
    var k := |ReferenceText(r)|;
    ScanCuts(a, escaped, r);
    CutAppend(a, b, escaped);
    ScanCuts(a + b, escaped, r);
    DropAppend(a, b, k);
    CutEndsWithBrace(a, escaped, r);
  }

  lemma CutEndsWithBrace(a: string, escaped: bool, r: Reference)
    requires Cut(a, escaped) == Some(r)
    ensures |ReferenceText(r)| <= |a|
    ensures EndsWithBackslash(a[|ReferenceText(r)|..], false) == EndsWithBackslash(a, escaped)
  {
    var k := |ReferenceText(r)|;
    ScanCuts(a, escaped, r);
    assert a[k - 1] == ReferenceText(r)[k - 1];
    EndsAfter(a, k, escaped);
  }


  /**
   * Scanning `a + b` is scanning `a`, then `b` with the look-behind `a`
   * leaves, when no reference begun in `a` can be closed in `b`.
   */
  lemma {:induction false} ScanAppend(a: string, b: string, escaped: bool)
    requires Separable(a, b)
    ensures Scan(a + b, escaped) == Scan(a, escaped) + Scan(b, EndsWithBackslash(a, escaped))
    decreases |a|, 1
  {
    if a == [] {
      assert a + b == b;
    } else if Cut(a, escaped).Some? {
      ScanAppendAfterCut(a, b, escaped, Cut(a, escaped).value);
    } else {
      ScanAppendAfterCopy(a, b, escaped);
    }
  }

  lemma {:induction false} ScanAppendAfterCut(a: string, b: string, escaped: bool, r: Reference)
    requires Separable(a, b)
    requires a != [] && Cut(a, escaped) == Some(r)
    ensures Scan(a + b, escaped) == Scan(a, escaped) + Scan(b, EndsWithBackslash(a, escaped))
    decreases |a|, 0
  {
    var k := |ReferenceText(r)|;
    var tail := EndsWithBackslash(a, escaped);
    CutThenAppend(a, b, escaped, r);
    SeparableSuffix(a, b, k);
    ScanAppend(a[k..], b, false);
    ScanCuts(a, escaped, r);
    ConsAssoc(Ref(r), Scan(a[k..], false), Scan(b, tail));
  }

  lemma {:induction false} ScanAppendAfterCopy(a: string, b: string, escaped: bool)
    requires Separable(a, b)
    requires a != [] && Cut(a, escaped).None?
    ensures Scan(a + b, escaped) == Scan(a, escaped) + Scan(b, EndsWithBackslash(a, escaped))
    decreases |a|, 0
  {
    var tail := EndsWithBackslash(a, escaped);
    var e := a[0] == '\\';
    CutAppend(a, b, escaped);
    ScanCopies(a + b, escaped);
    assert (a + b)[0] == a[0];
    assert (a + b)[1..] == a[1..] + b;
    assert EndsWithBackslash(a[1..], e) == tail;
    SeparableSuffix(a, b, 1);
    ScanAppend(a[1..], b, e);
    ScanCopies(a, escaped);
    ConsAssoc(Lit(a[0]), Scan(a[1..], e), Scan(b, tail));
  }

  /**
   * `_repl_extended_env_var`: an excluded name keeps its whole `${...}`
   * text; without an operator the name resolves as in the simple form; with
   * one, the default first goes through the simple pass and then `:-` falls
   * back on an unset or empty value, `-` on an unset one only.
   */
  function Replacement(src: Sources, allow: Option<seq<string>>, r: Reference): (out: string)
    ensures r.fallback.None? && Permits(allow, r.name) ==> out == SimplePass.Replacement(src, allow, r.name)
  {
    if !Permits(allow, r.name) then ReferenceText(r)
    else match r.fallback
      case None => ResolveOr(src, r.name, "")
      case Some(Fallback(op, text)) =>
        var default := SimplePass.Substitute(src, allow, text);
        match op
        case UnsetOrEmpty =>
          var value := Lookup(src, r.name);
          if value.Some? && value.value != "" then value.value else default
        case UnsetOnly => ResolveOr(src, r.name, default)
  }

  function PieceOutput(src: Sources, allow: Option<seq<string>>, p: Piece): string {
    match p
    case Lit(c) => [c]
    case Ref(r) => Replacement(src, allow, r)
  }

  function Render(src: Sources, allow: Option<seq<string>>, ps: seq<Piece>): string {
    if ps == [] then [] else PieceOutput(src, allow, ps[0]) + Render(src, allow, ps[1..])
  }

  /** The whole bracketed pass over `s`. */
  function Substitute(src: Sources, allow: Option<seq<string>>, s: string): string {
    Render(src, allow, Scan(s, false))
  }

  lemma {:induction false} RenderAppend(src: Sources, allow: Option<seq<string>>, ps: seq<Piece>, qs: seq<Piece>)
    ensures Render(src, allow, ps + qs) == Render(src, allow, ps) + Render(src, allow, qs)
    decreases |ps|
  {
    if ps == [] {
      assert ps + qs == qs;
    } else {
      assert (ps + qs)[1..] == ps[1..] + qs;
      RenderAppend(src, allow, ps[1..], qs);
    }
  }

  /** Copied characters render as themselves. */
  lemma {:induction false} RenderLiteral(src: Sources, allow: Option<seq<string>>, ps: seq<Piece>)
    requires AllLiteral(ps)
    ensures Render(src, allow, ps) == Texts(ps)
    decreases |ps|
  {
    if ps != [] {
      RenderLiteral(src, allow, ps[1..]);
    }
  }

  /** Text whose every `$` is escaped comes out of the pass unchanged, whatever the allow-list. */
  lemma EscapedUnchanged(src: Sources, allow: Option<seq<string>>, s: string)
    requires DollarsEscaped(s, false)
    ensures Substitute(src, allow, s) == s
  {
    ScanEscapedIsLiteral(s, false);
    RenderLiteral(src, allow, Scan(s, false));
    ScanRoundTrip(s, false);
  }

  /** Text without `$` that does not end in a backslash passes through and leaves the rest alone. */
  lemma SubstituteAfterPlainText(src: Sources, allow: Option<seq<string>>, a: string, b: string)
    requires '$' !in a
    requires a == [] || a[|a| - 1] != '\\'
    ensures Substitute(src, allow, a + b) == a + Substitute(src, allow, b)
  {
    ScanAfterPlainText(a, b, false);
    RenderAppend(src, allow, Scan(a, false), Scan(b, false));
    RenderLiteral(src, allow, Scan(a, false));
    ScanRoundTrip(a, false);
  }

  /** Text without `}` or `$` after the scanned part passes through unchanged. */
  lemma SubstituteBeforePlainText(src: Sources, allow: Option<seq<string>>, a: string, b: string)
    requires '}' !in b && '$' !in b
    ensures Substitute(src, allow, a + b) == Substitute(src, allow, a) + b
  {
    var e := EndsWithBackslash(a, false);
    ScanAppend(a, b, false);
    RenderAppend(src, allow, Scan(a, false), Scan(b, e));
    ScanAfterPlainText(b, [], e);
    assert b + [] == b;
    RenderLiteral(src, allow, Scan(b, e));
    ScanRoundTrip(b, e);
  }

  /** A lone well-formed reference becomes its replacement. */
  lemma SingleReference(src: Sources, allow: Option<seq<string>>, r: Reference)
    requires WellFormed(r)
    ensures Substitute(src, allow, ReferenceText(r)) == Replacement(src, allow, r)
  {
    var s := ReferenceText(r);
    MatchAtComplete(s, r);
    ScanCuts(s, false, r);
    assert s[|s|..] == [];
    assert Scan(s, false) == [Ref(r)];
    assert Render(src, allow, [Ref(r)]) == Replacement(src, allow, r) + Render(src, allow, []);
  }

  /**
   * The pass distributes over `a + b` when `a` does not end in a backslash
   * and no reference begun in `a` can be closed in `b`.
   */
  lemma SubstituteAppend(src: Sources, allow: Option<seq<string>>, a: string, b: string)
    requires a == [] || a[|a| - 1] != '\\'
    requires Separable(a, b)
    ensures Substitute(src, allow, a + b) == Substitute(src, allow, a) + Substitute(src, allow, b)
  {
    ScanAppend(a, b, false);
    RenderAppend(src, allow, Scan(a, false), Scan(b, false));
  }

  /** Text without `$` comes out of the pass unchanged. */
  lemma NoDollarUnchanged(src: Sources, allow: Option<seq<string>>, s: string)
    requires '$' !in s
    ensures Substitute(src, allow, s) == s
  {
    assert DollarsEscaped(s, false);
    EscapedUnchanged(src, allow, s);
  }

  /**
   * A `$` where no reference starts is copied, and the scan goes on with
   * the text after it; with no further `$` that text is copied too.
   */
  lemma UnmatchedDollar(src: Sources, allow: Option<seq<string>>, u: string)
    requires MatchAt("$" + u).None?
    ensures Substitute(src, allow, "$" + u) == "$" + Substitute(src, allow, u)
    ensures '$' !in u ==> Substitute(src, allow, "$" + u) == "$" + u
  {
    var s := "$" + u;
    ScanCopies(s, false);
    assert s[1..] == u;
    assert s[0] == '$';
    assert Scan(s, false) == [Lit('$')] + Scan(u, false);
    RenderAppend(src, allow, [Lit('$')], Scan(u, false));
    assert Render(src, allow, [Lit('$')]) == "$";
    if '$' !in u {
      NoDollarUnchanged(src, allow, u);
    }
  }

  /** Without a closing `}` nothing after `${` is matched. */
  lemma UnclosedNoMatch(u: string)
    ensures '}' !in u ==> MatchInside(u).None?
  {
    if MatchInside(u).Some? {
      MatchInsideSound(u);
      var r := MatchInside(u).value;
      var p := r.name + FallbackText(r.fallback) + "}";
      assert u[|p| - 1] == p[|p| - 1];
    }
  }

  /** `${NAME-}`, `${NAME:-}` and `${NAME:x}` are not matched. */
  lemma OperatorNoMatch(name: string, t: string)
    requires IsName(name)
    requires
      || (|t| >= 2 && t[..2] == "-}")
      || (|t| >= 3 && t[..3] == ":-}")
      || (|t| >= 1 && t[0] == ':' && (|t| == 1 || t[1] != '-'))
    ensures MatchInside(name + t).None?
  {
    NameRunAppend(name, t);
    NameRunOfName(name);
    assert (name + t)[|name|..] == t;
    if t[0] == '-' {
      assert t[1..][0] == '}';
    } else if |t| >= 3 && t[..3] == ":-}" {
      assert t[2..][0] == '}';
    }
  }

  /**
   * What follows `${NAME` in the malformed brackets: `-}` and `:-}` (an
   * empty default), `:` without a `-` after it, or no closing `}` at all.
   */
  predicate MalformedTail(t: string) {
    || (|t| >= 2 && t[..2] == "-}")
    || (|t| >= 3 && t[..3] == ":-}")
    || (|t| >= 1 && t[0] == ':' && (|t| == 1 || t[1] != '-'))
    || '}' !in t
  }

  /**
   * The malformed brackets `${NAME-}`, `${NAME:-}`, `${NAME:x}` (no `-` after
   * the colon) and an unclosed `${NAME...` are not matched.
   */
  lemma MalformedNoMatch(name: string, t: string)
    requires IsName(name)
    requires MalformedTail(t)
    ensures MatchAt("${" + name + t).None?
  {
    assert ("${" + name + t)[2..] == name + t;
    if '}' !in t {
      assert forall i :: 0 <= i < |name| ==> name[i] != '}';
      assert '}' !in name + t;
      UnclosedNoMatch(name + t);
    } else {
      OperatorNoMatch(name, t);
    }
  }

  /**
   * A malformed `${NAME...` is copied up to the end of the name, and the
   * pass goes on with what follows.
   */
  lemma MalformedCopied(src: Sources, allow: Option<seq<string>>, name: string, t: string)
    requires IsName(name)
    requires MalformedTail(t)
    ensures Substitute(src, allow, "$" + (("{" + name) + t)) == "${" + name + Substitute(src, allow, t)
  {
    var head := "{" + name;
    MalformedNoMatch(name, t);
    BraceHead(name, t);
    UnmatchedDollar(src, allow, head + t);
    assert forall i :: 0 <= i < |name| ==> name[i] != '$';
    assert '$' !in head && head[|head| - 1] == name[|name| - 1];
    SubstituteAfterPlainText(src, allow, head, t);
    BraceHead(name, Substitute(src, allow, t));
  }

  /** `${NAME` followed by `x`, split after its dollar. */
  lemma BraceHead(name: string, x: string)
    ensures "$" + (("{" + name) + x) == "${" + name + x
  {
  }
}
