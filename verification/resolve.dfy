/**
 * `_resolve_var` (envsubst.py lines 39-47): a name that Python's `int()`
 * accepts indexes the argument vector, any other name is looked up in the
 * environment. Both are passed in explicitly instead of being read from the
 * running process.
 */
module Resolve {
  import opened Options

  /** What names resolve against: the process environment and the argument vector. */
  datatype Sources = Sources(env: map<string, string>, argv: seq<string>)

  predicate IsDigit(c: char) {
    '0' <= c <= '9'
  }

  /**
   * The names `int()` accepts, among those the patterns can capture: ASCII
   * digits, with single underscores allowed between two digits ("1_0").
   * No bound is put on the number of digits; Python versions that limit the
   * length of an integer string reject very long digit runs, which then
   * fall through to the environment instead.
   */
  predicate IsIntLiteral(s: string) {
    && |s| > 0
    && IsDigit(s[0])
    && IsDigit(s[|s| - 1])
    && (forall i :: 0 <= i < |s| ==> IsDigit(s[i]) || s[i] == '_')
    && (forall i :: 0 <= i < |s| - 1 && s[i] == '_' ==> s[i + 1] != '_')
  }

  /** The decimal value of the digits of `s`, underscores skipped. */
  function IntValue(s: string): nat {
    if s == [] then 0
    else if IsDigit(s[|s| - 1]) then IntValue(s[..|s| - 1]) * 10 + (s[|s| - 1] as int - '0' as int)
    else IntValue(s[..|s| - 1])
  }

  /** `_resolve_var(name)` with no default: the value if the name is set, None if it is not. */
  function Lookup(src: Sources, name: string): Option<string> {
    if IsIntLiteral(name) then
      var index := IntValue(name);
      if index < |src.argv| then Some(src.argv[index]) else None
    else if name in src.env then Some(src.env[name])
    else None
  }

  /** `_resolve_var(name, default)`. */
  function ResolveOr(src: Sources, name: string, default: string): string {
    Lookup(src, name).GetOr(default)
  }

  /** `$0` is the program name. */
  lemma ProgramNameAtZero(src: Sources)
    requires |src.argv| > 0
    ensures Lookup(src, "0") == Some(src.argv[0])
  {
    assert IsIntLiteral("0");
    assert IntValue("0") == 0 by {
      assert "0"[..0] == [];
    }
  }

  /**
   * A numeric name reads the argument vector and nothing else: an index past
   * its end is unset, whatever the environment holds under that name.
   */
  lemma PositionalIgnoresEnvironment(env: map<string, string>, env': map<string, string>, argv: seq<string>, name: string)
    requires IsIntLiteral(name)
    ensures Lookup(Sources(env, argv), name) == Lookup(Sources(env', argv), name)
    ensures Lookup(Sources(env, argv), name).Some? <==> IntValue(name) < |argv|
    ensures IntValue(name) < |argv| ==> Lookup(Sources(env, argv), name) == Some(argv[IntValue(name)])
  {
  }

  /** A non-numeric name reads the environment and nothing else. */
  lemma NamedIgnoresArgv(env: map<string, string>, argv: seq<string>, argv': seq<string>, name: string)
    requires !IsIntLiteral(name)
    ensures Lookup(Sources(env, argv), name) == Lookup(Sources(env, argv'), name)
    ensures Lookup(Sources(env, argv), name).Some? <==> name in env
    ensures name in env ==> Lookup(Sources(env, argv), name) == Some(env[name])
  {
  }

  /**
   * An unset name resolves to the caller's default, a set one to its value.
   * The default decides the result exactly when the name is unset: a set
   * name ignores it, whatever the caller passes.
   */
  lemma ResolveOrDefault(src: Sources, name: string, default: string)
    ensures Lookup(src, name).None? ==> ResolveOr(src, name, default) == default
    ensures Lookup(src, name).Some? ==> ResolveOr(src, name, default) == Lookup(src, name).value
    ensures Lookup(src, name).None? <==> forall d :: ResolveOr(src, name, d) == d
    ensures Lookup(src, name).Some? ==> forall d :: ResolveOr(src, name, d) == Lookup(src, name).value
  {
    if Lookup(src, name).Some? {
      var v := Lookup(src, name).value;
      assert ResolveOr(src, name, v + "x") == v != v + "x";
    }
  }

  function Pow10(n: nat): nat {
    if n == 0 then 1 else 10 * Pow10(n - 1)
  }

  /** How many digits `s` holds. */
  function DigitCount(s: string): nat {
    if s == [] then 0
    else DigitCount(s[..|s| - 1]) + (if IsDigit(s[|s| - 1]) then 1 else 0)
  }

  /** Positional notation: the digits of `a` are worth ten to the number of digits after them. */
  lemma {:induction false} IntValueAppend(a: string, b: string)
    ensures IntValue(a + b) == IntValue(a) * Pow10(DigitCount(b)) + IntValue(b)
    decreases |b|
  {
    if b == [] {
      assert a + b == a;
    } else {
      var b' := b[..|b| - 1];
      var c := b[|b| - 1];
      assert (a + b)[..|a + b| - 1] == a + b';
      assert (a + b)[|a + b| - 1] == c;
      IntValueAppend(a, b');
      var n := DigitCount(b');
      if IsDigit(c) {
        ShiftDigit(IntValue(a), Pow10(n), IntValue(b'), c as int - '0' as int);
        assert Pow10(n + 1) == Pow10(n) * 10;
      }
    }
  }

  lemma ShiftDigit(x: int, p: int, y: int, d: int)
    ensures (x * p + y) * 10 + d == x * (p * 10) + (y * 10 + d)
  {
  }

  /** A leading zero changes neither the value of the digits nor that they form a number. */
  lemma {:induction false} IntValueLeadingZero(s: string)
    ensures IntValue("0" + s) == IntValue(s)
    decreases |s|
  {
    if s == [] {
      assert ("0" + s)[..0] == [];
    } else {
      var t := "0" + s;
      assert t[..|t| - 1] == "0" + s[..|s| - 1];
      assert t[|t| - 1] == s[|s| - 1];
      IntValueLeadingZero(s[..|s| - 1]);
    }
  }

  /** `"007"` names the same argument as `"7"`. */
  lemma LeadingZeroIgnored(src: Sources, name: string)
    requires IsIntLiteral(name)
    ensures IsIntLiteral("0" + name)
    ensures Lookup(src, "0" + name) == Lookup(src, name)
  {
    var t := "0" + name;
    assert forall i :: 1 <= i < |t| ==> t[i] == name[i - 1];
    IntValueLeadingZero(name);
  }

  /** An underscore contributes no digit. */
  lemma {:induction false} IntValueSkipsUnderscore(a: string, b: string)
    ensures IntValue(a + "_" + b) == IntValue(a + b)
    decreases |b|
  {
    if b == [] {
      assert (a + "_" + b)[..|a + "_" + b| - 1] == a;
      assert a + b == a;
    } else {
      var b' := b[..|b| - 1];
      assert (a + "_" + b)[..|a + "_" + b| - 1] == a + "_" + b';
      assert (a + b)[..|a + b| - 1] == a + b';
      IntValueSkipsUnderscore(a, b');
    }
  }

  /** Two digit groups joined by one underscore still form a number. */
  lemma JoinedIsIntLiteral(a: string, b: string)
    requires IsIntLiteral(a) && IsIntLiteral(b)
    ensures IsIntLiteral(a + "_" + b)
  {
    var t := a + "_" + b;
    assert forall i :: 0 <= i < |a| ==> t[i] == a[i];
    assert forall i :: 0 <= i < |b| ==> t[|a| + 1 + i] == b[i];
    forall i | 0 <= i < |t| - 1 && t[i] == '_'
      ensures t[i + 1] != '_'
    {
      if i < |a| - 1 {
        assert t[i + 1] == a[i + 1];
      } else if i == |a| {
        assert t[i + 1] == b[0];
      } else if i > |a| {
        assert t[i] == b[i - |a| - 1] && t[i + 1] == b[i - |a|];
      }
    }
  }

  /** Two digit groups written next to each other still form a number. */
  lemma ConcatIsIntLiteral(a: string, b: string)
    requires IsIntLiteral(a) && IsIntLiteral(b)
    ensures IsIntLiteral(a + b)
  {
    var u := a + b;
    assert forall i :: 0 <= i < |a| ==> u[i] == a[i];
    assert forall i :: 0 <= i < |b| ==> u[|a| + i] == b[i];
    forall i | 0 <= i < |u| - 1 && u[i] == '_'
      ensures u[i + 1] != '_'
    {
      if i < |a| - 1 {
        assert u[i + 1] == a[i + 1];
      } else if i >= |a| {
        assert u[i] == b[i - |a|] && u[i + 1] == b[i - |a| + 1];
      }
    }
  }

  /** `"1_0"` names the same argument as `"10"`: `int()` accepts one underscore between digits. */
  lemma UnderscoreJoinsDigits(src: Sources, a: string, b: string)
    requires IsIntLiteral(a) && IsIntLiteral(b)
    ensures IsIntLiteral(a + "_" + b)
    ensures Lookup(src, a + "_" + b) == Lookup(src, a + b)
  {
    JoinedIsIntLiteral(a, b);
    ConcatIsIntLiteral(a, b);
    IntValueSkipsUnderscore(a, b);
  }
}
