/**
 * The value mappings of the `debug` and `theme` inputs.
 */
module Settings {

  /** An input that the host may bind either as a boolean or as an attribute string. */
  datatype BoolOrString = Bool(b: bool) | Str(s: string)

  /** The `debug` setter's coercion: only the string `'true'` is true; booleans pass through. */
  function DebugFlag(v: BoolOrString): (on: bool)
  {
    match v
    case Bool(b) => b
    case Str(s) => s == "true"
  }

  /** The Monaco theme for a component theme: `'dark'` gives `vs-dark`, anything else `vs`. */
  function MonacoTheme(theme: string): string
  {
    if theme == "dark" then "vs-dark" else "vs"
  }

  lemma DebugFlagCases(v: BoolOrString)
    ensures v.Str? ==> (DebugFlag(v) <==> v.s == "true")
    ensures v.Bool? ==> DebugFlag(v) == v.b
  {
  }

  /** Exactly two Monaco themes come out, and `vs-dark` only for `'dark'`. */
  lemma MonacoThemeCases(theme: string)
    ensures MonacoTheme(theme) in {"vs", "vs-dark"}
    ensures MonacoTheme(theme) == "vs-dark" <==> theme == "dark"
  {
  }
}
