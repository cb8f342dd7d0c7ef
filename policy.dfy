/**
 * The naming policy of a rotating sink: its configuration, and the
 * time formatting and parsing it relies on. Formatting and parsing are
 * the time package's; the model keeps them as arbitrary functions.
 */
module Policy {
  import opened Strings

  /** time.Time.Format and time.Parse for a layout, on instants given in nanoseconds. */
  datatype Naming = Naming(format: (string, int) -> string, parses: (string, string) -> bool)

  /** The fields of a Logfile that never change after open. */
  datatype Config = Config(
    naming: Naming,
    layout: string,
    baseName: string,
    seconds: int,
    maxSize: int,
    maxCount: int)

  /** The layout of Open: date and time to the second. */
  const SecondsLayout: string := ".20060102.150405"

  /** The layout of OpenDaily: the date. */
  const DailyLayout: string := ".20060102"

  /** The file name a rotation at `now` switches to. */
  function Candidate(cfg: Config, now: int): string {
    cfg.baseName + cfg.naming.format(cfg.layout, now)
  }

  /** The purge pass keeps a globbed name only when what follows the base name parses under the layout. */
  predicate SuffixParses(cfg: Config, path: string)
    requires |cfg.baseName| <= |path|
  {
    cfg.naming.parses(cfg.layout, path[|cfg.baseName|..])
  }

  /** The assumption the design rests on: formatted instants sort as the instants do. */
  ghost predicate FormatMonotone(naming: Naming, layout: string) {
    forall t1, t2 :: t1 <= t2 ==> LexLe(naming.format(layout, t1), naming.format(layout, t2))
  }

  /** Under that assumption, a later rotation never picks a name that sorts before an earlier one. */
  lemma CandidatesMonotone(cfg: Config, t1: int, t2: int)
    requires FormatMonotone(cfg.naming, cfg.layout) && t1 <= t2
    ensures LexLe(Candidate(cfg, t1), Candidate(cfg, t2))
  {
    LexLeCommonPrefix(cfg.baseName, cfg.naming.format(cfg.layout, t1), cfg.naming.format(cfg.layout, t2));
  }
}
