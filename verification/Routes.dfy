/** A route as the configuration parser leaves it for the code generator and the loader. */
module Routes {
  import opened Bytes

  datatype Target = UserSpace | KernelSpace | XdpProg

  datatype Route = Route(
    domain: seq<byte>,
    hash: bv64,
    target: Target,
    xskQueue: u32,
    kernelPort: u16,
    progIndex: u32,
    progName: seq<byte>,
    prefix: seq<byte>,
    suffix: seq<byte>,
    minLabels: byte,
    maxLabels: byte,
    minLength: u16,
    maxLength: u16,
    typeMask: bv32,
    powEnabled: bool,
    powDifficulty: byte,
    powWindow: u16,
    bloomEnabled: bool,
    bloomSize: u32,
    bloomHashes: byte,
    bloomWindow: u16,
    seeds: seq<seq<byte>>,
    qps: u32)
}
