/** Symbols as the statements of a program see them. */
module Symbols {
  import opened Operators

  /** A symbol: value and SYM_UNKNOWN, and SYM_REF, set where it is read. */
  datatype Sym = Sym(arg: Arg, ref: bool)

  /** By mangled name. */
  type Syms = map<string, Sym>
}
