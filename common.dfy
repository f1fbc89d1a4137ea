/** Value types shared by every module of the model: an Option for the
    source's NULL results, bytes, and the fixed-width integers of C. */
module Common {

  datatype Option<+T> = None | Some(value: T)

  type Byte = bv8

  /** uint16_t: ports. */
  type Uint16 = x: int | 0 <= x < 0x1_0000

  /** uint8_t: the scope id of an endpoint. */
  type Uint8 = x: int | 0 <= x < 0x100

  /** uint32_t: kernel interface indices, the device counter. */
  type Uint32 = x: int | 0 <= x < 0x1_0000_0000

  const Uint32Max: Uint32 := 0xFFFF_FFFF

  /** An IPv6 address (and the storage of the address field of an endpoint). */
  type Addr16 = s: seq<Byte> | |s| == 16 witness [0, 0, 0, 0, 0, 0, 0, 0, 0, 0, 0, 0, 0, 0, 0, 0]

  /** An IPv4 address. */
  type Addr4 = s: seq<Byte> | |s| == 4 witness [0, 0, 0, 0]

  const ZeroAddr16: Addr16 := [0, 0, 0, 0, 0, 0, 0, 0, 0, 0, 0, 0, 0, 0, 0, 0]

  /** The conversion of an unsigned 32-bit value to a C `int` (two's complement). */
  function ToInt32(x: Uint32): (r: int)
    ensures -0x8000_0000 <= r < 0x8000_0000
    ensures x < 0x8000_0000 ==> r == x
    ensures x >= 0x8000_0000 ==> r < 0
  {
    if x < 0x8000_0000 then x else x - 0x1_0000_0000
  }

  /** The implicit conversion of an unsigned value to a `uint8_t`: the low eight bits. */
  function ToUint8(x: nat): (r: Uint8)
    ensures x < 0x100 ==> r == x
    ensures (x - r) % 0x100 == 0
  {
    x % 0x100
  }

  lemma ToInt32Injective(x: Uint32, y: Uint32)
    ensures ToInt32(x) == ToInt32(y) <==> x == y
  {
  }

  /** `n` zero bytes. */
  function Zeros(n: nat): (r: seq<Byte>)
    ensures |r| == n
  {
    if n == 0 then [] else [0] + Zeros(n - 1)
  }

  /** The first `n` bytes of `data`, zero-padded: a memcpy of `n` bytes into a zeroed field. */
  function Fit(data: seq<Byte>, n: nat): (r: seq<Byte>)
    ensures |r| == n
  {
    if |data| >= n then data[..n] else data + Zeros(n - |data|)
  }

  lemma FitKeepsData(data: seq<Byte>, n: nat)
    ensures forall i :: 0 <= i < n && i < |data| ==> Fit(data, n)[i] == data[i]
  {
  }

  /** `f` applied to each element of `s`, in order. */
  function MapAll<A, B>(f: A -> B, s: seq<A>): (r: seq<B>)
    ensures |r| == |s|
  {
    if s == [] then [] else [f(s[0])] + MapAll(f, s[1..])
  }

  lemma {:induction false} MapAllCons<A, B>(f: A -> B, x: A, s: seq<A>)
    ensures MapAll(f, [x] + s) == [f(x)] + MapAll(f, s)
  {
    assert ([x] + s)[1..] == s;
  }

  lemma PrefixCons<T>(x: T, s: seq<T>, n: nat)
    requires 0 < n <= |s| + 1
    ensures ([x] + s)[..n] == [x] + s[..n - 1]
  {
  }
}
