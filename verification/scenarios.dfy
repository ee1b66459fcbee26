/**
 * The cases of tests/test_envsubst.py as lemmas about `Envsubst`. The tests
 * set variables in the process environment; here each lemma requires the
 * entries it relies on and holds for any other contents of the environment.
 * A call without an allow-list is `Omitted`. Input and output are written
 * as the pieces the tests format them from (`"abc " + x + " def"`).
 */
module Scenarios {
  import opened Options
  import opened Lexical
  import opened Sequences
  import opened Resolve
  import opened AllowList
  import SimplePass
  import BracketPass
  import opened Engine

  /** The names and defaults the tests use: names that are not integers, defaults free of `$` and `}`. */
  lemma TestLiterals()
    ensures IsName("FOO") && !IsIntLiteral("FOO")
    ensures IsName("TEST") && !IsIntLiteral("TEST")
    ensures IsName("DEFAULT") && !IsIntLiteral("DEFAULT")
    ensures '$' !in "i am a default" && '}' !in "i am a default"
    ensures '$' !in "test default val" && '}' !in "test default val"
    ensures "$" + "DEFAULT" != [] && '}' !in "$" + "DEFAULT"
  {
  }

  /** Which of the two names each allow-list of the tests lets through. */
  lemma TestAllowLists()
    ensures Permits(Normalize(NameList(["DEFAULT"])), "DEFAULT") && !Permits(Normalize(NameList(["DEFAULT"])), "TEST")
    ensures !Permits(Normalize(NameList(["TEST"])), "DEFAULT") && Permits(Normalize(NameList(["TEST"])), "TEST")
    ensures Permits(Normalize(NameList(["DEFAULT", "TEST"])), "DEFAULT") && Permits(Normalize(NameList(["DEFAULT", "TEST"])), "TEST")
  {
    assert "DEFAULT" != "TEST" by {
      assert |"DEFAULT"| != |"TEST"|;
    }
  }

  /** The `foo {0} bar` and `abc {0} def` frames of the tests leave the reference alone. */
  lemma InFrame(src: Sources, arg: AllowListArg, x: string, v: string)
    requires Envsubst(src, arg, x) == v
    ensures Envsubst(src, arg, "foo " + x + " bar") == "foo " + v + " bar"
    ensures Envsubst(src, arg, "abc " + x + " def") == "abc " + v + " def"
  {
    InPlainContext(src, arg, "foo ", x, " bar");
    InPlainContext(src, arg, "abc ", x, " def");
  }

  /** `foo $FOO bar` with FOO set. */
  lemma SimpleVariable(src: Sources)
    requires "FOO" in src.env && src.env["FOO"] == "test_val_1"
    ensures Envsubst(src, Omitted, "foo " + ("$" + "FOO") + " bar") == "foo " + "test_val_1" + " bar"
  {
    TestLiterals();
    SimpleReference(src, Omitted, "FOO");
    InFrame(src, Omitted, "$" + "FOO", "test_val_1");
  }

  /** `foo ${FOO} bar` with FOO set. */
  lemma BracketedVariable(src: Sources)
    requires "FOO" in src.env && src.env["FOO"] == "test_val_1"
    ensures Envsubst(src, Omitted, "foo " + ("${" + "FOO" + "}") + " bar") == "foo " + "test_val_1" + " bar"
  {
    TestLiterals();
    BracketReference(src, Omitted, "FOO");
    InFrame(src, Omitted, "${" + "FOO" + "}", "test_val_1");
  }

  /** `${FOO-i am a default}` for a FOO that is unset, set empty, or set. */
  lemma UnsetOnlyReference(src: Sources)
    ensures "FOO" !in src.env ==>
      Envsubst(src, Omitted, "${" + "FOO" + "-" + "i am a default" + "}") == "i am a default"
    ensures "FOO" in src.env ==>
      Envsubst(src, Omitted, "${" + "FOO" + "-" + "i am a default" + "}") == src.env["FOO"]
  {
    TestLiterals();
    SimplePass.NoDollarUnchanged(src, None, "i am a default");
    UnsetOnlyFallback(src, Omitted, "FOO", "i am a default");
  }

  /** The `-` tests: the default for an unset FOO, and FOO's value, even empty, otherwise. */
  lemma UnsetOnlyOperator(src: Sources)
    ensures "FOO" !in src.env ==>
      Envsubst(src, Omitted, "abc " + ("${" + "FOO" + "-" + "i am a default" + "}") + " def") == "abc " + "i am a default" + " def"
    ensures "FOO" in src.env && src.env["FOO"] == "" ==>
      Envsubst(src, Omitted, "abc " + ("${" + "FOO" + "-" + "i am a default" + "}") + " def") == "abc " + "" + " def"
    ensures "FOO" in src.env && src.env["FOO"] == "i am definitely a value" ==>
      Envsubst(src, Omitted, "abc " + ("${" + "FOO" + "-" + "i am a default" + "}") + " def") == "abc " + "i am definitely a value" + " def"
  {
    UnsetOnlyReference(src);
    var x := "${" + "FOO" + "-" + "i am a default" + "}";
    InFrame(src, Omitted, x, Envsubst(src, Omitted, x));
  }

  /** `${FOO:-i am a default}` for a FOO that is unset, set empty, or set non-empty. */
  lemma UnsetOrEmptyReference(src: Sources)
    ensures "FOO" !in src.env || src.env["FOO"] == "" ==>
      Envsubst(src, Omitted, "${" + "FOO" + ":-" + "i am a default" + "}") == "i am a default"
    ensures "FOO" in src.env && src.env["FOO"] != "" ==>
      Envsubst(src, Omitted, "${" + "FOO" + ":-" + "i am a default" + "}") == src.env["FOO"]
  {
    TestLiterals();
    SimplePass.NoDollarUnchanged(src, None, "i am a default");
    UnsetOrEmptyFallback(src, Omitted, "FOO", "i am a default");
  }

  /** The `:-` tests: the default for an empty or unset FOO, FOO's value otherwise. */
  lemma UnsetOrEmptyOperator(src: Sources)
    ensures "FOO" in src.env && src.env["FOO"] == "" ==>
      Envsubst(src, Omitted, "abc " + ("${" + "FOO" + ":-" + "i am a default" + "}") + " def") == "abc " + "i am a default" + " def"
    ensures "FOO" !in src.env ==>
      Envsubst(src, Omitted, "abc " + ("${" + "FOO" + ":-" + "i am a default" + "}") + " def") == "abc " + "i am a default" + " def"
    ensures "FOO" in src.env && src.env["FOO"] == "i am a real live value" ==>
      Envsubst(src, Omitted, "abc " + ("${" + "FOO" + ":-" + "i am a default" + "}") + " def") == "abc " + "i am a real live value" + " def"
  {
    UnsetOrEmptyReference(src);
    var x := "${" + "FOO" + ":-" + "i am a default" + "}";
    InFrame(src, Omitted, x, Envsubst(src, Omitted, x));
  }

  /** `\$` on its own: its dollar follows a backslash. */
  lemma EscapedDollar()
    ensures DollarsEscaped("\\$", false)
  {
    assert "\\$"[0] != '$';
  }

  /** The first string of the escaping tests comes back unchanged, whatever the allow-list. */
  lemma EscapedSimple(src: Sources, arg: AllowListArg)
    ensures var s := "i am an " + "\\$" + "ESCAPED variable"; Envsubst(src, arg, s) == s
  {
    var one := "i am an ";
    var two := "ESCAPED variable";
    EscapedDollar();
    assert DollarsEscaped(one, false) && DollarsEscaped(two, false);
    DollarsEscapedAppend(one, "\\$", false);
    DollarsEscapedAppend(one + "\\$", two, false);
    EscapedVerbatim(src, arg, one + "\\$" + two);
  }

  /** The second string of the escaping tests comes back unchanged, whatever the allow-list. */
  lemma EscapedBracketed(src: Sources, arg: AllowListArg)
    ensures var s := "i am an " + "\\$" + "{ESCAPED:-bracketed} " + "\\$" + "{expression}"; Envsubst(src, arg, s) == s
  {
    var one := "i am an ";
    var three := "{ESCAPED:-bracketed} ";
    var four := "{expression}";
    EscapedDollar();
    assert DollarsEscaped(one, false) && DollarsEscaped(three, false) && DollarsEscaped(four, false);
    DollarsEscapedAppend(one, "\\$", false);
    DollarsEscapedAppend(one + "\\$", three, false);
    DollarsEscapedAppend(one + "\\$" + three, "\\$", false);
    DollarsEscapedAppend(one + "\\$" + three + "\\$", four, false);
    EscapedVerbatim(src, arg, one + "\\$" + three + "\\$" + four);
  }

  /**
   * `abc ${TEST:-$DEFAULT} def` with DEFAULT set and TEST set empty: the
   * default is substituted when both names pass the allow-list (or there
   * is none); with only DEFAULT allowed the bracket stays around the
   * substituted default; with only TEST allowed `$DEFAULT` stays as it is.
   */
  lemma SimpleVariableInDefault(src: Sources)
    requires "DEFAULT" in src.env && src.env["DEFAULT"] == "test default val"
    requires "TEST" in src.env && src.env["TEST"] == ""
    ensures Envsubst(src, NameList(["DEFAULT"]), "abc " + ("${" + "TEST" + ":-" + ("$" + "DEFAULT") + "}") + " def")
      == "abc " + ("${" + "TEST" + ":-" + "test default val" + "}") + " def"
    ensures Envsubst(src, NameList(["DEFAULT", "TEST"]), "abc " + ("${" + "TEST" + ":-" + ("$" + "DEFAULT") + "}") + " def")
      == "abc " + "test default val" + " def"
    ensures Envsubst(src, NameList(["TEST"]), "abc " + ("${" + "TEST" + ":-" + ("$" + "DEFAULT") + "}") + " def")
      == "abc " + ("$" + "DEFAULT") + " def"
    ensures Envsubst(src, Omitted, "abc " + ("${" + "TEST" + ":-" + ("$" + "DEFAULT") + "}") + " def")
      == "abc " + "test default val" + " def"
  {
    var x := "${" + "TEST" + ":-" + ("$" + "DEFAULT") + "}";
    DefaultOnlyAllowed(src);
    InFrame(src, NameList(["DEFAULT"]), x, "${" + "TEST" + ":-" + "test default val" + "}");
    BothAllowed(src, NameList(["DEFAULT", "TEST"]));
    InFrame(src, NameList(["DEFAULT", "TEST"]), x, "test default val");
    TestOnlyAllowed(src);
    InFrame(src, NameList(["TEST"]), x, "$" + "DEFAULT");
    BothAllowed(src, Omitted);
    InFrame(src, Omitted, x, "test default val");
  }

  lemma DefaultOnlyAllowed(src: Sources)
    requires "DEFAULT" in src.env && src.env["DEFAULT"] == "test default val"
    ensures Envsubst(src, NameList(["DEFAULT"]), "${" + "TEST" + ":-" + ("$" + "DEFAULT") + "}")
      == "${" + "TEST" + ":-" + "test default val" + "}"
  {
    var arg := NameList(["DEFAULT"]);
    var allow := Normalize(arg);
    TestLiterals();
    TestAllowLists();
    SimplePass.SingleReference(src, allow, "DEFAULT");
    ExcludedBracketKeepsSpan(src, arg, "TEST", BracketPass.UnsetOrEmpty, "$" + "DEFAULT");
  }

  lemma BothAllowed(src: Sources, arg: AllowListArg)
    requires arg == Omitted || arg == NameList(["DEFAULT", "TEST"])
    requires "DEFAULT" in src.env && src.env["DEFAULT"] == "test default val"
    requires "TEST" in src.env && src.env["TEST"] == ""
    ensures Envsubst(src, arg, "${" + "TEST" + ":-" + ("$" + "DEFAULT") + "}") == "test default val"
  {
    var allow := Normalize(arg);
    TestLiterals();
    TestAllowLists();
    SimplePass.SingleReference(src, allow, "DEFAULT");
    SimplePass.NoDollarUnchanged(src, allow, "test default val");
    UnsetOrEmptyFallback(src, arg, "TEST", "$" + "DEFAULT");
  }

  lemma TestOnlyAllowed(src: Sources)
    requires "TEST" in src.env && src.env["TEST"] == ""
    ensures Envsubst(src, NameList(["TEST"]), "${" + "TEST" + ":-" + ("$" + "DEFAULT") + "}") == "$" + "DEFAULT"
  {
    var arg := NameList(["TEST"]);
    var allow := Normalize(arg);
    TestLiterals();
    TestAllowLists();
    SimplePass.SingleReference(src, allow, "DEFAULT");
    UnsetOrEmptyFallback(src, arg, "TEST", "$" + "DEFAULT");
  }

  /** `abc $1 def` gives the first argument after the program name. */
  lemma PositionalArgument(src: Sources)
    requires |src.argv| >= 2 && src.argv[1] == "test argv value"
    ensures Envsubst(src, Omitted, "abc " + ("$" + "1") + " def") == "abc " + "test argv value" + " def"
  {
    PositionalReference(src);
    InFrame(src, Omitted, "$" + "1", "test argv value");
  }

  lemma PositionalReference(src: Sources)
    requires |src.argv| >= 2 && src.argv[1] == "test argv value"
    ensures Envsubst(src, Omitted, "$" + "1") == "test argv value"
  {
    PositionalName();
    SimpleReference(src, Omitted, "1");
  }

  /** `1` is a name and the integer literal for one. */
  lemma PositionalName()
    ensures IsName("1") && IsIntLiteral("1") && IntValue("1") == 1
  {
  }

  /** The environment of `test_multiple`: FOO, BAR and BAR2 set, NOPE unset. */
  predicate MultipleEnvironment(src: Sources) {
    && "FOO" in src.env && src.env["FOO"] == "i am FOO value"
    && "BAR" in src.env && src.env["BAR"] == "i am BAR value"
    && "BAR2" in src.env && src.env["BAR2"] == "i am BAR2 value"
    && "NOPE" !in src.env
  }

  const multipleFoo := "$" + "FOO"
  const multipleBar := "${" + "BAR" + "}"
  const multipleBar2 := "${" + "BAR2" + ":-" + "default for bar2" + "}"
  const multipleNope := "${" + "NOPE" + "-" + "var NOPE not there" + "}"

  lemma MultipleNames()
    ensures IsName("BAR") && !IsIntLiteral("BAR")
    ensures IsName("BAR2") && !IsIntLiteral("BAR2")
    ensures IsName("NOPE") && !IsIntLiteral("NOPE")
  {
  }

  lemma MultipleLiterals()
    ensures '$' !in "default for bar2" && '}' !in "default for bar2"
    ensures '$' !in "var NOPE not there" && '}' !in "var NOPE not there"
    ensures '$' !in "i am FOO value"
  {
  }

  /** Each reference of `test_multiple` on its own. */
  lemma MultipleReferences(src: Sources)
    requires MultipleEnvironment(src)
    ensures Envsubst(src, Omitted, multipleFoo) == "i am FOO value"
    ensures Envsubst(src, Omitted, multipleBar) == "i am BAR value"
    ensures Envsubst(src, Omitted, multipleBar2) == "i am BAR2 value"
    ensures Envsubst(src, Omitted, multipleNope) == "var NOPE not there"
  {
    TestLiterals();
    MultipleNames();
    MultipleLiterals();
    SimpleReference(src, Omitted, "FOO");
    BracketReference(src, Omitted, "BAR");
    SimplePass.NoDollarUnchanged(src, None, "default for bar2");
    UnsetOrEmptyFallback(src, Omitted, "BAR2", "default for bar2");
    SimplePass.NoDollarUnchanged(src, None, "var NOPE not there");
    UnsetOnlyFallback(src, Omitted, "NOPE", "var NOPE not there");
  }

  /** `abc $FOO def ${BAR}`: the plain text after `$FOO`'s value closes nothing. */
  lemma MultipleHead(src: Sources)
    requires MultipleEnvironment(src)
    ensures Envsubst(src, Omitted, "abc " + multipleFoo + " def " + multipleBar)
      == "abc " + "i am FOO value" + " def " + "i am BAR value"
  {
    MultipleReferences(src);
    MultipleLiterals();
    var front := "abc " + multipleFoo + " def ";
    SimplePassInContext(src, None, "abc ", multipleFoo, " def ");
    SimplePass.SingleReference(src, None, "FOO");
    var first := "abc " + ("i am FOO value" + " def ");
    assert SimplePass.Substitute(src, None, front) == first;
    assert '$' !in first;
    Concatenation(src, Omitted, front, multipleBar);
    InPlainContext(src, Omitted, "abc ", multipleFoo, " def ");
  }

  /** ` jkl ${NOPE-...} mno`. */
  lemma MultipleTail(src: Sources)
    requires MultipleEnvironment(src)
    ensures Envsubst(src, Omitted, " jkl " + multipleNope + " mno") == " jkl " + "var NOPE not there" + " mno"
  {
    MultipleReferences(src);
    InPlainContext(src, Omitted, " jkl ", multipleNope, " mno");
  }

  /** The grouping `test_multiple` is split along: after the head, and after the third reference. */
  lemma RegroupMultiple<T>(a: seq<T>, b: seq<T>, c: seq<T>, d: seq<T>, e: seq<T>, f: seq<T>, g: seq<T>, h: seq<T>)
    ensures a + b + c + d + e + f + g + h == (a + b + c + d) + (e + (f + g + h))
  {
    Assoc(a + b + c + d, e, f + g + h);
  }

  /** `test_multiple`: four references of all kinds in one string. */
  lemma Multiple(src: Sources)
    requires MultipleEnvironment(src)
    ensures Envsubst(src, Omitted,
        "abc " + multipleFoo + " def " + multipleBar + multipleBar2 + " jkl " + multipleNope + " mno")
      == "abc " + "i am FOO value" + " def " + "i am BAR value" + "i am BAR2 value" + " jkl " + "var NOPE not there" + " mno"
  {
    var head := "abc " + multipleFoo + " def " + multipleBar;
    var tail := " jkl " + multipleNope + " mno";
    MultipleHead(src);
    MultipleReferences(src);
    MultipleTail(src);
    assert head[|head| - 1] == '}';
    SplitAfterBrace(src, Omitted, head, multipleBar2 + tail);
    SplitAfterBrace(src, Omitted, multipleBar2, tail);
    RegroupMultiple("abc ", multipleFoo, " def ", multipleBar, multipleBar2, " jkl ", multipleNope, " mno");
    RegroupMultiple("abc ", "i am FOO value", " def ", "i am BAR value", "i am BAR2 value", " jkl ", "var NOPE not there", " mno");
  }

  /**
   * The bracket side condition of `Concatenation` cannot be dropped: split
   * before its `}`, a set `${NAME-d}` leaves two literal halves, while the
   * whole is replaced by NAME's value.
   */
  lemma SplitInsideBracket(src: Sources, arg: AllowListArg, name: string, text: string)
    requires IsName(name) && Permits(Normalize(arg), name)
    requires text != [] && '$' !in text && '}' !in text
    requires Lookup(src, name).Some? && '$' !in Lookup(src, name).value
    ensures Envsubst(src, arg, "${" + name + "-" + text + "}") == Lookup(src, name).value
    ensures Envsubst(src, arg, "${" + name + "-" + text) + Envsubst(src, arg, "}") == "${" + name + "-" + text + "}"
    ensures Envsubst(src, arg, "${" + name + "-" + text + "}") != Envsubst(src, arg, "${" + name + "-" + text) + Envsubst(src, arg, "}")
  {
    var allow := Normalize(arg);
    SimplePass.NoDollarUnchanged(src, allow, text);
    UnsetOnlyFallback(src, arg, name, text);
    var t := "-" + text;
    SimplePass.NoDollarUnchanged(src, allow, t);
    assert BracketPass.MalformedTail(t);
    MalformedBracketLiteral(src, arg, name, t);
    Assoc("${" + name, "-", text);
    IdentityWithoutDollar(src, arg, "}");
    assert "${" + name + "-" + text + "}" != Lookup(src, name).value by {
      assert ("${" + name + "-" + text + "}")[0] == '$';
    }
  }
}
