/** Values shared by every component. */
module Common {

  datatype Option<+T> = None | Some(value: T)

  datatype Result<+T> = Ok(value: T) | Err

  /** Go's int64 upper bound. */
  const MAX_INT64: int := 0x7FFF_FFFF_FFFF_FFFF

  function Min(a: int, b: int): (m: int) {
    if a <= b then a else b
  }

  function Max(a: int, b: int): (m: int) {
    if a <= b then b else a
  }

  /** nextSnapshotGeneration: after the previous snapshot's number and above the floor a phone sent. */
  function NextSnapshotGeneration(previous: Option<int>, floor: Option<int>): (next: Option<int>)
    ensures next.Some? && previous.Some? ==> next.value > previous.value
    ensures next.Some? && floor.Some? ==> next.value > floor.value
    ensures next.Some? && floor.None? ==> next.value == if previous.Some? then previous.value + 1 else 1
  {
    if previous.Some? && (previous.value < 0 || previous.value == MAX_INT64) then None
    else
      var generation := if previous.Some? then previous.value + 1 else 1;
      Some(if floor.Some? && generation <= floor.value then floor.value + 1 else generation)
  }

  // ---------------------------------------------------------------- bytes

  newtype byte = b: int | 0 <= b < 256

  /** Big-endian, four bytes. */
  function PutUint32(n: nat): (s: seq<byte>)
    requires n < 0x1_0000_0000
    ensures |s| == 4 && Uint32(s) == n
  {
    [(n / 0x100_0000) as byte, (n / 0x1_0000 % 256) as byte, (n / 0x100 % 256) as byte, (n % 256) as byte]
  }

  function Uint32(s: seq<byte>): (n: nat)
    requires |s| == 4
    ensures n < 0x1_0000_0000
  {
    s[0] as nat * 0x100_0000 + s[1] as nat * 0x1_0000 + s[2] as nat * 0x100 + s[3] as nat
  }

  /** Big-endian, eight bytes. */
  function PutUint64(n: nat): (s: seq<byte>)
    requires n < 0x1_0000_0000_0000_0000
    ensures |s| == 8 && Uint32(s[..4]) * 0x1_0000_0000 + Uint32(s[4..]) == n
  {
    var high, low := PutUint32(n / 0x1_0000_0000), PutUint32(n % 0x1_0000_0000);
    assert (high + low)[..4] == high && (high + low)[4..] == low;
    high + low
  }
}
