/** The editing modes of the terminal client (`InputMode` in nebula-cli/src/app/mod.rs). */
module InputModes {

  datatype InputMode = Normal | Insert | Command
}
