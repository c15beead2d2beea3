/** The constants of the terminals, which several modules share. */
module Config {
  /** How many terminals there are, each with its console. */
  const NR_CONSOLES: nat := 3

  const NEWLINE: int := 10
  const BACKSPACE: int := 8
}
