/** Words, frames, configuration and the few sequence facts every other module needs. */
module Base {

  newtype Byte = x: int | 0 <= x < 256

  const NEWLINE: Byte := 10

  /** An NMEA frame is the bytes of one line; `len` in the C record is the length of the sequence. */
  type Frame = seq<Byte>

  datatype Option<+T> = None | Some(value: T)

  type uint16 = n: int | 0 <= n < 0x1_0000
  type uint32 = n: int | 0 <= n < 0x1_0000_0000

  const WORD: int := 0x1_0000_0000

  /** Unsigned 32-bit arithmetic: the value a C `uint32_t` holds after computing `n`. */
  function Wrap32(n: int): uint32 { n % 0x1_0000_0000 }

  lemma WrapKeeps(n: uint32)
    ensures Wrap32(n) == n
  {
  }

  /** Adding `b` is invisible in 32 bits exactly when `b` is a multiple of 2^32. */
  lemma WrapAbsorbs(a: nat, b: nat)
    ensures Wrap32(a + b) == Wrap32(a) <==> Wrap32(b) == 0
  {
  }

  /** Counting on a wrapped value is counting, then wrapping. */
  lemma WrapAdds(a: int, b: int)
    ensures Wrap32(Wrap32(a) + b) == Wrap32(a + b)
  {
  }

  lemma WrapSubtracts(a: int, b: int)
    ensures Wrap32(Wrap32(a) - Wrap32(b)) == Wrap32(a - b)
  {
  }

  function Pow2(n: nat): nat { if n == 0 then 1 else 2 * Pow2(n - 1) }

  function Min(a: nat, b: nat): nat { if a < b then a else b }

  function Wrap16(n: int): uint16 { n % 0x1_0000 }

  /** The build-time options, with the ranges of Kconfig and the bridge's build assertion. */
  datatype Config = Config(
    maxClients: nat, maxSinks: nat, frameMax: nat, ingestDepth: nat, sinkDepth: nat,
    serverEnabled: bool, clientEnabled: bool)
  {
    predicate Valid() {
      && 1 <= maxClients <= 8
      && 1 <= maxSinks <= 9
      && 32 <= frameMax <= 512
      && 2 <= ingestDepth <= 256
      && 2 <= sinkDepth <= 128
      && maxSinks >= (if serverEnabled then maxClients else 0) + (if clientEnabled then 1 else 0)
    }
  }

  ghost predicate Increasing(s: seq<nat>) {
    forall i, j :: 0 <= i < j < |s| ==> s[i] < s[j]
  }

  /** The bytes of a sequence of frames, one after the other. */
  function Concat(frames: seq<Frame>): Frame {
    if frames == [] then [] else Concat(frames[..|frames| - 1]) + frames[|frames| - 1]
  }

  lemma ConcatSnoc(frames: seq<Frame>, f: Frame)
    ensures Concat(frames + [f]) == Concat(frames) + f
  {
    assert (frames + [f])[..|frames|] == frames;
  }

  lemma Associates(a: Frame, b: Frame, c: Frame)
    ensures (a + b) + c == a + (b + c)
  {
  }

  /** A complete frame: it fits, ends in a newline, and has no other newline. */
  ghost predicate IsLine(n: nat, f: Frame) {
    && 1 <= |f| <= n
    && f[|f| - 1] == NEWLINE
    && NoNewline(f[..|f| - 1])
  }

  ghost predicate NoNewline(f: Frame) {
    forall i :: 0 <= i < |f| ==> f[i] != NEWLINE
  }
}
