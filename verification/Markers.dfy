/** Environment markers: conditions on the target environment, as trees. */
module Markers {
  import opened Texts

  datatype MarkerVar =
    | OsName
    | SysPlatform
    | PlatformSystem
    | PlatformMachine
    | PlatformRelease
    | PlatformVersion
    | PlatformPythonImplementation
    | ImplementationName
    | PythonVersion
    | PythonFullVersion
    | ImplementationVersion
    | ExtraVar
  {
    predicate IsVersion() {
      PythonVersion? || PythonFullVersion? || ImplementationVersion?
    }
  }

  datatype MarkerOp = Eq | NotEq | Gte | Lte | Gt | Lt | TildeEq | In | NotIn

  datatype MarkerValue = Variable(variable: MarkerVar) | Text(text: string)

  datatype MarkerTree =
    | True
    | False
    | And(children: seq<MarkerTree>)
    | Or(children: seq<MarkerTree>)
    | Compare(lhs: MarkerValue, op: MarkerOp, rhs: MarkerValue)
    | Extra(name: string, equal: bool)
    | VersionIn(key: MarkerVar, versions: seq<string>, negated: bool)

  predicate IsAtom(t: MarkerTree) {
    t.Compare? || t.Extra? || t.VersionIn?
  }

  // -- Printing --------------------------------------------------------------------------

  function PrintVar(v: MarkerVar): string {
    match v
    case OsName => "os_name"
    case SysPlatform => "sys_platform"
    case PlatformSystem => "platform_system"
    case PlatformMachine => "platform_machine"
    case PlatformRelease => "platform_release"
    case PlatformVersion => "platform_version"
    case PlatformPythonImplementation => "platform_python_implementation"
    case ImplementationName => "implementation_name"
    case PythonVersion => "python_version"
    case PythonFullVersion => "python_full_version"
    case ImplementationVersion => "implementation_version"
    case ExtraVar => "extra"
  }

  function PrintOp(op: MarkerOp): string {
    match op
    case Eq => "=="
    case NotEq => "!="
    case Gte => ">="
    case Lte => "<="
    case Gt => ">"
    case Lt => "<"
    case TildeEq => "~="
    case In => "in"
    case NotIn => "not in"
  }

  function Quoted(s: string): string {
    "\"" + s + "\""
  }

  function PrintValue(v: MarkerValue): string {
    match v
    case Variable(x) => PrintVar(x)
    case Text(s) => Quoted(s)
  }

  /** No parentheses are printed around nested trees. */
  function Print(t: MarkerTree): string {
    match t
    case True => "true"
    case False => "false"
    case And(cs) => Join(seq(|cs|, i requires 0 <= i < |cs| => Print(cs[i])), " and ")
    case Or(cs) => Join(seq(|cs|, i requires 0 <= i < |cs| => Print(cs[i])), " or ")
    case Compare(lhs, op, rhs) => PrintValue(lhs) + " " + PrintOp(op) + " " + PrintValue(rhs)
    case Extra(name, equal) => if equal then "extra == " + Quoted(name) else "extra != " + Quoted(name)
    case VersionIn(key, versions, negated) =>
      PrintVar(key) + " " + (if negated then "not in" else "in") + " " + Quoted(Join(versions, " "))
  }
}
