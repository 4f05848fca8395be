/** The numeric setting of app/static.py that the statistics use; the environment-derived paths are not modelled. */
module Static {

  /** Games shorter than this many seconds count as "smurf" games. */
  const MinMatchDuration: int := 60
}
