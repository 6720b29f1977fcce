/** What an operation leaves for the log: the image after it and the blocks it passed to
    log_write; and sequences of operations. */
module FsHistory {
  import FS = FsSpec

  type Image = FS.Image

  /** One operation: the image it leaves, and the blocks it passes to log_write. */
  datatype Tx = Tx(after: Image, logged: set<nat>)

  ghost function ImageAt(g0: Image, txs: seq<Tx>, t: nat): Image
    requires t <= |txs|
  {
    if t == 0 then g0 else txs[t - 1].after
  }
}
