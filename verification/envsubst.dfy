/**
 * The public entry point `envsubst(string, env_var_list)`: normalise the
 * allow-list, run the `$NAME` pass over the input, then run the `${...}`
 * pass over what the first pass produced.
 *
 * The second pass scans the OUTPUT of the first, so a value substituted
 * for `$NAME` is itself scanned for `${...}` references, and a `${...}`
 * default has already been through the `$NAME` pass once before the
 * second pass substitutes it again. The lemmas below state the end-to-end
 * behaviour under the side conditions that keep those rescans out of the
 * way, and `ValuesAreRescanned` exhibits one case where they do not.
 */
module Engine {
  import opened Options
  import opened Lexical
  import opened Sequences
  import opened Resolve
  import opened AllowList
  import SimplePass
  import BracketPass

  /** `envsubst(string, env_var_list)` with the environment and argv passed in. */
  function Envsubst(src: Sources, arg: AllowListArg, s: string): string {
    var allow := Normalize(arg);
    BracketPass.Substitute(src, allow, SimplePass.Substitute(src, allow, s))
  }

  /** Every `$` preceded by a backslash: the string comes back unchanged. */
  lemma EscapedVerbatim(src: Sources, arg: AllowListArg, s: string)
    requires DollarsEscaped(s, false)
    ensures Envsubst(src, arg, s) == s
  {
    var allow := Normalize(arg);
    SimplePass.EscapedUnchanged(src, allow, s);
    BracketPass.EscapedUnchanged(src, allow, s);
  }

  /** A string without `$` comes back unchanged. */
  lemma IdentityWithoutDollar(src: Sources, arg: AllowListArg, s: string)
    requires '$' !in s
    ensures Envsubst(src, arg, s) == s
  {
    assert DollarsEscaped(s, false);
    EscapedVerbatim(src, arg, s);
  }

  /**
   * `$NAME` on its own: left as it is when the allow-list excludes NAME;
   * otherwise replaced by its value (empty when unset), and that value is
   * then scanned by the `${...}` pass, so a value without `$` is the result.
   */
  lemma SimpleReference(src: Sources, arg: AllowListArg, name: string)
    requires IsName(name)
    ensures !Permits(Normalize(arg), name) ==> Envsubst(src, arg, "$" + name) == "$" + name
    ensures Permits(Normalize(arg), name) ==>
      Envsubst(src, arg, "$" + name) == BracketPass.Substitute(src, Normalize(arg), ResolveOr(src, name, ""))
    ensures Permits(Normalize(arg), name) && '$' !in ResolveOr(src, name, "") ==>
      Envsubst(src, arg, "$" + name) == ResolveOr(src, name, "")
  {
    var allow := Normalize(arg);
    SimplePass.SingleReference(src, allow, name);
    if Permits(allow, name) {
      var value := ResolveOr(src, name, "");
      if '$' !in value {
        BracketPass.NoDollarUnchanged(src, allow, value);
      }
    } else {
      assert ("$" + name)[1] == name[0];
      assert forall i :: 0 <= i < |name| ==> name[i] != '$';
      BracketPass.UnmatchedDollar(src, allow, name);
    }
  }

  /**
   * `${NAME}` on its own: replaced by the value of NAME (empty when unset)
   * when the allow-list permits NAME, and left as it is otherwise.
   */
  lemma BracketReference(src: Sources, arg: AllowListArg, name: string)
    requires IsName(name)
    ensures Permits(Normalize(arg), name) ==> Envsubst(src, arg, "${" + name + "}") == ResolveOr(src, name, "")
    ensures !Permits(Normalize(arg), name) ==> Envsubst(src, arg, "${" + name + "}") == "${" + name + "}"
  {
    var allow := Normalize(arg);
    var u := name + "}";
    assert "${" + name + "}" == "${" + u;
    SimplePass.DollarBrace(src, allow, u);
    assert forall i :: 0 <= i < |name| ==> name[i] != '$';
    assert '$' !in u;
    SimplePass.NoDollarUnchanged(src, allow, u);
    var r := BracketPass.Reference(name, None);
    assert BracketPass.ReferenceText(r) == "${" + u;
    BracketPass.SingleReference(src, allow, r);
  }

  /**
   * The two spellings agree on a permitted name whose value holds no `$`:
   * `${NAME}` and `$NAME` give the same result.
   */
  lemma BracketAgreesWithSimple(src: Sources, arg: AllowListArg, name: string)
    requires IsName(name)
    requires Permits(Normalize(arg), name)
    requires '$' !in ResolveOr(src, name, "")
    ensures Envsubst(src, arg, "${" + name + "}") == Envsubst(src, arg, "$" + name)
  {
    BracketReference(src, arg, name);
    SimpleReference(src, arg, name);
  }

  /**
   * The value of a `$NAME` is scanned again by the `${...}` pass: when the
   * value of NAME is `${INNER}`, `$NAME` gives the value of INNER while
   * `${NAME}` gives `${INNER}` itself.
   */
  lemma ValuesAreRescanned(src: Sources, arg: AllowListArg, name: string, inner: string)
    requires IsName(name) && IsName(inner)
    requires Permits(Normalize(arg), name) && Permits(Normalize(arg), inner)
    requires Lookup(src, name) == Some("${" + inner + "}")
    ensures Envsubst(src, arg, "$" + name) == ResolveOr(src, inner, "")
    ensures Envsubst(src, arg, "${" + name + "}") == "${" + inner + "}"
  {
    var allow := Normalize(arg);
    SimpleReference(src, arg, name);
    BracketReference(src, arg, name);
    var r := BracketPass.Reference(inner, None);
    assert BracketPass.ReferenceText(r) == "${" + inner + "}";
    BracketPass.SingleReference(src, allow, r);
  }

  /**
   * The `$NAME` pass over `${NAME<op><default>}` touches only the default:
   * the name and the operator before it hold no `$`, and the closing `}`
   * after it starts no name.
   */
  lemma FirstPassOfFallback(src: Sources, allow: Option<seq<string>>, name: string, op: BracketPass.Operator, text: string)
    requires IsName(name)
    ensures SimplePass.Substitute(src, allow, "${" + name + BracketPass.OperatorText(op) + text + "}")
      == "${" + ((name + BracketPass.OperatorText(op)) + (SimplePass.Substitute(src, allow, text) + "}"))
  {
    var opText := BracketPass.OperatorText(op);
    var head := name + opText;
    Regroup("${", name, opText, text, "}");
    SimplePass.DollarBrace(src, allow, head + (text + "}"));
    assert forall i :: 0 <= i < |name| ==> name[i] != '$';
    assert '$' !in head;
    assert head[|head| - 1] == '-';
    SimplePass.SubstituteAfterPlainText(src, allow, head, text + "}");
    SimplePass.SubstituteBeforePlainText(src, allow, text, "}");
  }

  /**
   * `${NAME<op><default>}` where the default, after the `$NAME` pass, is
   * non-empty and holds no `}`: the result is the bracketed replacement of
   * that reference, with the pre-substituted default as its fallback text.
   */
  lemma FallbackReference(src: Sources, arg: AllowListArg, name: string, op: BracketPass.Operator, text: string)
    requires IsName(name)
    requires SimplePass.Substitute(src, Normalize(arg), text) != []
    requires '}' !in SimplePass.Substitute(src, Normalize(arg), text)
    ensures Envsubst(src, arg, "${" + name + BracketPass.OperatorText(op) + text + "}")
      == BracketPass.Replacement(src, Normalize(arg),
           BracketPass.Reference(name, Some(BracketPass.Fallback(op, SimplePass.Substitute(src, Normalize(arg), text)))))
  {
    var allow := Normalize(arg);
    var opText := BracketPass.OperatorText(op);
    var d := SimplePass.Substitute(src, allow, text);
    FirstPassOfFallback(src, allow, name, op, text);
    var r := BracketPass.Reference(name, Some(BracketPass.Fallback(op, d)));
    Regroup("${", name, opText, d, "}");
    assert BracketPass.ReferenceText(r) == "${" + name + (opText + d) + "}";
    BracketPass.SingleReference(src, allow, r);
  }

  /**
   * `${NAME-default}`: a set NAME gives its value, even an empty one; an
   * unset NAME gives the default, which by then has been through the
   * `$NAME` pass twice (once per pass), and is the default itself when it
   * holds no `$`. An excluded NAME is covered by `ExcludedBracketKeepsSpan`.
   */
  lemma UnsetOnlyFallback(src: Sources, arg: AllowListArg, name: string, text: string)
    requires IsName(name)
    requires Permits(Normalize(arg), name)
    requires SimplePass.Substitute(src, Normalize(arg), text) != []
    requires '}' !in SimplePass.Substitute(src, Normalize(arg), text)
    ensures Lookup(src, name).Some? ==>
      Envsubst(src, arg, "${" + name + "-" + text + "}") == Lookup(src, name).value
    ensures Lookup(src, name).None? ==>
      Envsubst(src, arg, "${" + name + "-" + text + "}")
        == SimplePass.Substitute(src, Normalize(arg), SimplePass.Substitute(src, Normalize(arg), text))
    ensures Lookup(src, name).None? && '$' !in text ==>
      Envsubst(src, arg, "${" + name + "-" + text + "}") == text
  {
    FallbackReference(src, arg, name, BracketPass.UnsetOnly, text);
    if '$' !in text {
      SimplePass.NoDollarUnchanged(src, Normalize(arg), text);
    }
  }

  /**
   * `${NAME:-default}`: a set, non-empty NAME gives its value; an unset or
   * empty NAME gives the default, substituted as for `-`.
   */
  lemma UnsetOrEmptyFallback(src: Sources, arg: AllowListArg, name: string, text: string)
    requires IsName(name)
    requires Permits(Normalize(arg), name)
    requires SimplePass.Substitute(src, Normalize(arg), text) != []
    requires '}' !in SimplePass.Substitute(src, Normalize(arg), text)
    ensures Lookup(src, name).Some? && Lookup(src, name).value != "" ==>
      Envsubst(src, arg, "${" + name + ":-" + text + "}") == Lookup(src, name).value
    ensures (Lookup(src, name).None? || Lookup(src, name).value == "") ==>
      Envsubst(src, arg, "${" + name + ":-" + text + "}")
        == SimplePass.Substitute(src, Normalize(arg), SimplePass.Substitute(src, Normalize(arg), text))
    ensures (Lookup(src, name).None? || Lookup(src, name).value == "") && '$' !in text ==>
      Envsubst(src, arg, "${" + name + ":-" + text + "}") == text
  {
    FallbackReference(src, arg, name, BracketPass.UnsetOrEmpty, text);
    if '$' !in text {
      SimplePass.NoDollarUnchanged(src, Normalize(arg), text);
    }
  }

  /**
   * A `${NAME<op><default>}` whose NAME the allow-list excludes keeps its
   * whole span, but the `$NAME` references inside the default have already
   * been substituted by the first pass.
   */
  lemma ExcludedBracketKeepsSpan(src: Sources, arg: AllowListArg, name: string, op: BracketPass.Operator, text: string)
    requires IsName(name)
    requires !Permits(Normalize(arg), name)
    requires SimplePass.Substitute(src, Normalize(arg), text) != []
    requires '}' !in SimplePass.Substitute(src, Normalize(arg), text)
    ensures Envsubst(src, arg, "${" + name + BracketPass.OperatorText(op) + text + "}")
      == "${" + name + BracketPass.OperatorText(op) + SimplePass.Substitute(src, Normalize(arg), text) + "}"
  {
    FallbackReference(src, arg, name, op, text);
  }

  /**
   * Brackets that the pattern does not accept are not substituted: `${NAME`
   * is copied and only what follows it is. Whether a bracket is malformed
   * (`${NAME-}`, `${NAME:-}`, `${NAME:` not followed by `-`, no closing
   * brace) is decided on the first pass's output, because that pass may
   * remove or insert the `-`, `:-` or `}` the pattern looks for. When
   * nothing after the head holds `$`, the text comes back whole.
   */
  lemma MalformedBracketLiteral(src: Sources, arg: AllowListArg, name: string, t: string)
    requires IsName(name)
    requires BracketPass.MalformedTail(SimplePass.Substitute(src, Normalize(arg), t))
    ensures Envsubst(src, arg, "${" + name + t) == "${" + name + Envsubst(src, arg, t)
    ensures '$' !in t ==> Envsubst(src, arg, "${" + name + t) == "${" + name + t
  {
    var allow := Normalize(arg);
    FirstPassAfterName(src, allow, name, t);
    BracketPass.MalformedCopied(src, allow, name, SimplePass.Substitute(src, allow, t));
    if '$' !in t {
      IdentityWithoutDollar(src, arg, t);
    }
  }

  /** The `$NAME` pass copies `${NAME` and substitutes what follows it. */
  lemma FirstPassAfterName(src: Sources, allow: Option<seq<string>>, name: string, t: string)
    requires IsName(name)
    ensures SimplePass.Substitute(src, allow, "${" + name + t) == "$" + (("{" + name) + SimplePass.Substitute(src, allow, t))
  {
    assert "${" + name + t == "${" + (name + t);
    SimplePass.DollarBrace(src, allow, name + t);
    assert forall i :: 0 <= i < |name| ==> name[i] != '$';
    SimplePass.SubstituteAfterPlainText(src, allow, name, t);
    assert "${" + (name + SimplePass.Substitute(src, allow, t)) == "$" + (("{" + name) + SimplePass.Substitute(src, allow, t));
  }

  /**
   * A default that the `$NAME` pass empties, as in `${FOO-$UNSET}`, leaves
   * `${FOO-}` or `${FOO:-}` behind, which the bracketed pattern rejects: the
   * bracket comes out as that literal text whatever FOO holds, so neither
   * FOO's value nor the (empty) default is substituted.
   */
  lemma EmptiedDefaultStaysLiteral(src: Sources, arg: AllowListArg, name: string, op: BracketPass.Operator, text: string)
    requires IsName(name)
    requires SimplePass.Substitute(src, Normalize(arg), text) == []
    ensures Envsubst(src, arg, "${" + name + BracketPass.OperatorText(op) + text + "}")
      == "${" + name + BracketPass.OperatorText(op) + "}"
  {
    var allow := Normalize(arg);
    var opText := BracketPass.OperatorText(op);
    var t := opText + "}";
    FirstPassOfFallback(src, allow, name, op, text);
    EmptyFallbackShape(name, opText, SimplePass.Substitute(src, allow, text));
    assert BracketPass.MalformedTail(t) by {
      match op
      case UnsetOnly => assert t[..2] == "-}";
      case UnsetOrEmpty => assert t[..3] == ":-}";
    }
    BracketPass.MalformedCopied(src, allow, name, t);
    BracketPass.NoDollarUnchanged(src, allow, t);
    Assoc("${" + name, opText, "}");
  }

  /** The first pass's output for an emptied default, split after its dollar. */
  lemma EmptyFallbackShape(name: string, opText: string, d: string)
    requires d == []
    ensures "${" + ((name + opText) + (d + "}")) == "$" + (("{" + name) + (opText + "}"))
  {
  }

  /**
   * Substitution is local: plain text around a piece, with no `$`, no `}`
   * after it, no backslash just before it and no name character just after
   * it, is copied and does not change what the piece becomes.
   */
  lemma InPlainContext(src: Sources, arg: AllowListArg, p: string, x: string, q: string)
    requires '$' !in p && '$' !in q && '}' !in q
    requires p == [] || p[|p| - 1] != '\\'
    requires q == [] || !IsNameChar(q[0])
    ensures Envsubst(src, arg, p + x + q) == p + Envsubst(src, arg, x) + q
  {
    var allow := Normalize(arg);
    SimplePassInContext(src, allow, p, x, q);
    BracketPassInContext(src, allow, p, SimplePass.Substitute(src, allow, x), q);
  }

  lemma SimplePassInContext(src: Sources, allow: Option<seq<string>>, p: string, x: string, q: string)
    requires '$' !in p && '$' !in q
    requires p == [] || p[|p| - 1] != '\\'
    requires q == [] || !IsNameChar(q[0])
    ensures SimplePass.Substitute(src, allow, p + x + q) == p + (SimplePass.Substitute(src, allow, x) + q)
  {
    Assoc(p, x, q);
    SimplePass.SubstituteAfterPlainText(src, allow, p, x + q);
    SimplePass.SubstituteBeforePlainText(src, allow, x, q);
  }

  lemma BracketPassInContext(src: Sources, allow: Option<seq<string>>, p: string, y: string, q: string)
    requires '$' !in p && '$' !in q && '}' !in q
    requires p == [] || p[|p| - 1] != '\\'
    ensures BracketPass.Substitute(src, allow, p + (y + q)) == p + BracketPass.Substitute(src, allow, y) + q
  {
    BracketPass.SubstituteAfterPlainText(src, allow, p, y + q);
    BracketPass.SubstituteBeforePlainText(src, allow, y, q);
    Assoc(p, BracketPass.Substitute(src, allow, y), q);
  }

  /**
   * Substitution distributes over `a + b` when neither pass can see across
   * the join: `a` does not end in a backslash and no `$NAME` begun in `a`
   * can reach into `b`; after the first pass, `a` still does not end in a backslash and
   * no `${` begun in it can be closed by a `}` from `b`.
   */
  lemma Concatenation(src: Sources, arg: AllowListArg, a: string, b: string)
    requires a == [] || a[|a| - 1] != '\\'
    requires SimplePass.Separable(a, b)
    requires var first := SimplePass.Substitute(src, Normalize(arg), a);
      && (first == [] || first[|first| - 1] != '\\')
      && BracketPass.Separable(first, SimplePass.Substitute(src, Normalize(arg), b))
    ensures Envsubst(src, arg, a + b) == Envsubst(src, arg, a) + Envsubst(src, arg, b)
  {
    var allow := Normalize(arg);
    SimplePass.SubstituteAppend(src, allow, a, b);
    BracketPass.SubstituteAppend(src, allow, SimplePass.Substitute(src, allow, a), SimplePass.Substitute(src, allow, b));
  }

  /** Right after a `}`, a string splits into two parts substituted independently. */
  lemma SplitAfterBrace(src: Sources, arg: AllowListArg, a: string, b: string)
    requires a != [] && a[|a| - 1] == '}'
    ensures Envsubst(src, arg, a + b) == Envsubst(src, arg, a) + Envsubst(src, arg, b)
  {
    var allow := Normalize(arg);
    var front := a[..|a| - 1];
    assert a == front + "}";
    SimplePass.SubstituteBeforePlainText(src, allow, front, "}");
    var first := SimplePass.Substitute(src, allow, a);
    assert first[|first| - 1] == '}';
    forall i | 0 <= i < |first| && first[i] == '$'
      ensures '}' in first[i..]
    {
      assert first[i..][|first| - 1 - i] == '}';
    }
    Concatenation(src, arg, a, b);
  }
}
