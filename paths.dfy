/**
 * `maak_relatief_pad` and `maak_absoluut_pad`: each returns its argument
 * unchanged when it already has the wanted form, and otherwise asks the
 * operating system's path functions, falling back to the argument when
 * they raise.
 */
module Paths {
  import opened Optional

  /**
   * What the process's environment answers: `os.path.isabs(p)`,
   * `os.path.relpath(p, os.getcwd())` and `os.path.abspath(p)`, the last two
   * `None` when the call raises. Which paths count as absolute depends on
   * the platform, so it is part of the environment too.
   */
  datatype PathEnv = PathEnv(isabs: string -> bool, relpath: string -> Option<string>, abspath: string -> Option<string>)

  /** `maak_relatief_pad(pad)`. */
  function MaakRelatiefPad(pad: string, env: PathEnv): (r: string)
    ensures !env.isabs(pad) ==> r == pad
    ensures r == pad || env.relpath(pad) == Some(r)
    ensures env.isabs(pad) && env.relpath(pad).Some? ==> r == env.relpath(pad).value
  {
    if !env.isabs(pad) then pad
    else match env.relpath(pad)
      case Some(rel) => rel
      case None => pad
  }

  /** `maak_absoluut_pad(pad)`. */
  function MaakAbsoluutPad(pad: string, env: PathEnv): (r: string)
    ensures env.isabs(pad) ==> r == pad
    ensures r == pad || env.abspath(pad) == Some(r)
    ensures !env.isabs(pad) && env.abspath(pad).Some? ==> r == env.abspath(pad).value
  {
    if env.isabs(pad) then pad
    else match env.abspath(pad)
      case Some(abs) => abs
      case None => pad
  }

  /**
   * The working directory has not moved and `p` is already normalised:
   * resolving the relative form `relpath` gives for `p` leads back to `p`,
   * and that relative form is a non-empty relative path. `p` itself is not
   * empty: no platform's `isabs` accepts `''`.
   */
  predicate RoundTrips(env: PathEnv, p: string)
  {
    p != ""
    && (env.relpath(p).Some? ==>
          var rel := env.relpath(p).value;
          rel != "" && !env.isabs(rel) && env.abspath(rel) == Some(p))
  }

  /** Storing an absolute path in relative form and resolving it again gives the path back. */
  lemma PathRoundTrip(p: string, env: PathEnv)
    requires env.isabs(p) && RoundTrips(env, p)
    ensures MaakRelatiefPad(p, env) != ""
    ensures MaakAbsoluutPad(MaakRelatiefPad(p, env), env) == p
  {
  }
}
