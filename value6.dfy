/// The owned NBT tree of the newest generation (shen-nbt6/src/value.rs).
/// Integers are mathematical (the `i8` .. `i64` widths are not enforced); floats
/// are their raw IEEE-754 bit patterns; strings are already decoded text.
module Nbt6Value {
  import opened NbtBase

  datatype NbtValue =
    | Byte(b: int)
    | Short(s: int)
    | Int(i: int)
    | Long(l: int)
    | Float(fbits: nat)
    | Double(dbits: nat)
    | ByteArray(bytes: seq<int>)
    | String(text: string)
    | List(items: seq<NbtValue>)
    | Compound(name: Option<string>, members: seq<(string, NbtValue)>)
    | IntArray(ints: seq<int>)
    | LongArray(longs: seq<int>)
}
