/**
 * The optional allow-list of envsubst.py: how the `env_var_list` argument is
 * normalised (lines 108-112) and how it gates a name (lines 53 and 63).
 */
module AllowList {
  import opened Options

  /**
   * The values a caller can pass as `env_var_list`: nothing, one name as a
   * string, a list of names, or any other Python value (a tuple, a set, ...).
   */
  datatype AllowListArg = Omitted | SingleName(name: string) | NameList(names: seq<string>) | OtherValue

  /** Whether `name` may be substituted: no list is active, or the list holds it. */
  predicate Permits(allow: Option<seq<string>>, name: string) {
    allow.None? || name in allow.value
  }

  /**
   * A string becomes a one-element list, a list is used as given, and
   * anything else switches filtering off.
   */
  function Normalize(arg: AllowListArg): (r: Option<seq<string>>)
    ensures r.Some? <==> arg.SingleName? || arg.NameList?
    ensures forall n :: Permits(r, n) <==> (arg.SingleName? ==> n == arg.name) && (arg.NameList? ==> n in arg.names)
  {
    match arg
    case SingleName(name) => Some([name])
    case NameList(names) => Some(names)
    case _ => None
  }
}
