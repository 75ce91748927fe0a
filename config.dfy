/** The service's configuration read from the environment (app_python/app.py, lines 20-22).
    The environment is a parameter: `None` stands for an unset variable. */
module Config {
  import opened Wrappers
  import opened Text

  /** Value `os.getenv("DEBUG", "False")` yields when the variable is unset. */
  const DEBUG_DEFAULT := "False"

  /** `os.getenv("DEBUG", "False").lower() == "true"`. */
  function DebugEnabled(env: Option<string>): (on: bool)
    ensures env.None? ==> !on
  {
    Lower(env.GetOr(DEBUG_DEFAULT)) == "true"
  }

  /** Independent description of the accepted spellings: four letters, each
      either case of the corresponding letter of "true". */
  predicate SpellsTrue(v: string) {
    && |v| == 4
    && (v[0] == 't' || v[0] == 'T')
    && (v[1] == 'r' || v[1] == 'R')
    && (v[2] == 'u' || v[2] == 'U')
    && (v[3] == 'e' || v[3] == 'E')
  }

  /** DEBUG is on exactly when the variable is set to "true" in any mix of cases. */
  lemma DebugEnabledIff(env: Option<string>)
    ensures DebugEnabled(env) <==> env.Some? && SpellsTrue(env.value)
  {
    if env.Some? {
      var v := env.value;
      var l := Lower(v);
      if l == "true" {
        assert l[0] == 't' && l[1] == 'r' && l[2] == 'u' && l[3] == 'e';
      }
      if SpellsTrue(v) {
        assert l == "true";
      }
    } else {
      assert Lower(DEBUG_DEFAULT)[0] == 'f';
    }
  }

  /** Values that other tools read as true are not accepted here. */
  lemma DebugRejectsOtherTruthyValues()
    ensures !DebugEnabled(Some("1"))
    ensures !DebugEnabled(Some("yes"))
    ensures !DebugEnabled(Some("on"))
    ensures !DebugEnabled(Some(" true"))
    ensures DebugEnabled(Some("TRUE")) && DebugEnabled(Some("True"))
  {
    DebugEnabledIff(Some("1"));
    DebugEnabledIff(Some("yes"));
    DebugEnabledIff(Some("on"));
    DebugEnabledIff(Some(" true"));
    DebugEnabledIff(Some("TRUE"));
    DebugEnabledIff(Some("True"));
  }
}
