/**
 * The decisions `main` takes from its command-line flags: whether to stop
 * with the usage text, and what to do with the listings once fetched.
 * Parsing the flags, printing and exiting are not modelled.
 */
module Cli {

  /**
   * Whether `main` prints the usage text and exits: when no argument is
   * given, or when, without `-list`, exactly one of `-brand` and `-model` is.
   * `osArgsLen` is the length of `os.Args`, which counts the program name, so
   * a value below 2 means that no argument was given.
   */
  function ShowsUsage(osArgsLen: nat, brand: string, model: string, list: bool): (r: bool)
    ensures r <==> osArgsLen < 2 || (!list && ((brand == "") != (model == "")))
  {
    if osArgsLen < 2 then true
    else if brand != "" && model == "" && !list then true
    else if brand == "" && model != "" && !list then true
    else false
  }

  /** What happens to the fetched listings. */
  datatype Output =
    | PrintJson             // indented JSON on standard output
    | WriteCsv(dir: string) // a CSV export under this output directory
    | NoOutput              // list mode: only the labels were printed

  /**
   * The output step of `main`: JSON on standard output when asked for and no
   * directory is given, otherwise a CSV export (into the working directory
   * `cwd` when no directory is given); nothing in list mode.
   */
  function OutputFor(logStdOut: bool, list: bool, outdir: string, cwd: string): (r: Output)
    ensures r == NoOutput <==> list
    ensures r == PrintJson <==> logStdOut && !list && outdir == ""
    ensures r.WriteCsv? ==> r.dir == (if outdir == "" then cwd else outdir)
    ensures r.WriteCsv? && logStdOut ==> outdir != ""
  {
    if logStdOut && !list && outdir == "" then PrintJson
    else if !list then WriteCsv(if outdir == "" then cwd else outdir)
    else NoOutput
  }
}
