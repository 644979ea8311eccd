/** The values every other module speaks about: results, integers of the source's widths,
    and the media buffer that travels through a pipeline. */
module Media {

  datatype Option<+T> = None | Some(value: T)

  datatype Error =
    | EmptyPipeline
    | StageFailed
    | ClockUninitialized

  datatype Result<+T> = Ok(value: T) | Err(error: Error)

  const I64_MIN := -0x8000_0000_0000_0000
  const I64_MAX := 0x7fff_ffff_ffff_ffff
  const TWO_63 := 0x8000_0000_0000_0000
  const TWO_64 := 0x1_0000_0000_0000_0000
  const U32_MAX := 0xffff_ffff
  const I128_BOUND := 0x8000_0000_0000_0000_0000_0000_0000_0000

  type i64 = x: int | I64_MIN <= x <= I64_MAX witness 0
  newtype byte = x: int | 0 <= x < 256

  /** The two's complement value a 64-bit register holds after computing `x`. */
  function Wrap64(x: int): (r: i64)
    ensures I64_MIN <= x <= I64_MAX ==> r == x
    ensures (r - x) % 0x1_0000_0000_0000_0000 == 0
  {
    (x - I64_MIN) % 0x1_0000_0000_0000_0000 + I64_MIN
  }

  function Min(a: int, b: int): int {
    if a <= b then a else b
  }

  function Max(a: int, b: int): int {
    if a >= b then a else b
  }

  function SaturatingSub(a: nat, b: nat): nat {
    if a <= b then 0 else a - b
  }

  /** A frame: its presentation timestamp, its payload and the remaining header fields
      (dts, duration, codec, flags, ...), which core carries but never looks at. */
  datatype MediaBuffer = MediaBuffer(pts: i64, data: seq<byte>, header: seq<int>) {

    function Len(): nat {
      |data|
    }

    /** `i64::MIN` is the "no timestamp" value. */
    predicate HasPts() {
      pts != I64_MIN
    }
  }

  /** Total payload of a list of frames. */
  function Bytes(frames: seq<MediaBuffer>): nat {
    if frames == [] then 0 else Bytes(frames[..|frames| - 1]) + frames[|frames| - 1].Len()
  }

  lemma {:induction false} BytesConcat(a: seq<MediaBuffer>, b: seq<MediaBuffer>)
    ensures Bytes(a + b) == Bytes(a) + Bytes(b)
  {
    if b == [] {
      assert a + b == a;
    } else {
      assert (a + b)[..|a + b| - 1] == a + b[..|b| - 1];
      BytesConcat(a, b[..|b| - 1]);
    }
  }
}
