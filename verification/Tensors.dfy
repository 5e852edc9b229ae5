/** What the catalogue stores about a tensor (InklingTensor). */
module Tensors {
  /** Names in a header or an index are shorter than this. */
  const NAME_LIMIT: nat := 128

  /** The shard outside the text model: the packer leaves it out and the runtime does not open it. */
  const MTP_SHARD: string := "mtp.safetensors"

  datatype Dtype = Unknown | F32 | BF16 | I64 | F8E4M3 | U8 {
    /** dtype_size: bytes per element, 0 for a type that is not known. */
    function Width(): (w: nat)
      ensures w == 0 <==> Unknown?
    {
      match this
      case Unknown => 0
      case F32 => 4
      case BF16 => 2
      case I64 => 8
      case F8E4M3 => 1
      case U8 => 1
    }
  }

  datatype Meta = Meta(dtype: Dtype, shape: seq<nat>, offset: nat, bytes: nat)

  const UNBOUND: Meta := Meta(Unknown, [], 0, 0)

  datatype Tensor = Tensor(name: string, shard: string, shardId: nat, meta: Meta)

  /** A member of a shard header. */
  datatype Described = Described(name: string, meta: Meta)

  function NamesOf(s: seq<Tensor>): (r: seq<string>)
    ensures |r| == |s| && forall i :: 0 <= i < |s| ==> r[i] == s[i].name
  {
    seq(|s|, i requires 0 <= i < |s| => s[i].name)
  }
}
