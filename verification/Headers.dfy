/** Block headers and the federation parameters in them. */
module Headers {

  type Script = seq<nat>

  /** Null is the empty vote; Compact leaves out what does not concern block signing. */
  datatype Entry =
    | Null
    | Compact(signblockScript: Script, witnessLimit: nat, elidedRoot: nat)
    | Full(signblockScript: Script, witnessLimit: nat, fedpegProgram: Script, fedpegScript: Script,
        extension: seq<Script>)

  datatype Header = Header(time: nat, challenge: Script, current: Entry, proposed: Entry) {
    predicate DynaFed() {
      !(current.Null? && proposed.Null?)
    }
  }
}
