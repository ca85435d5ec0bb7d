/** Objects, paths, modes, and what a ledger record says of a path. */
module StoreTypes {
  import opened Prelude

  type Oid = nat
  type Path = Bytes

  datatype Mode = Regular | Executable | Symlink | Gitlink

  /** `blob`: no content (flags only), seen as absent, or an object. */
  datatype Override = Override(blob: Option<Option<Oid>>, mode: Option<Mode>)

  type Overrides = map<Path, Override>

  /** A tree's listing. */
  type TreeEntries = map<Path, (Mode, Oid)>
}
