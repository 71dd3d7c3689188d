/** Types shared by every part of the model. */
module Base {

  datatype Option<+T> = None | Some(value: T) {
    predicate IsFailure() {
      None?
    }

    function PropagateFailure<U>(): Option<U>
      requires None?
    {
      None
    }

    function Extract(): T
      requires Some?
    {
      value
    }
  }

  datatype Result<+T, +E> = Ok(value: T) | Err(error: E)

  type Byte = x: int | 0 <= x < 256

  /** A Rust `String` is its UTF-8 bytes; so is a file name, a URI or a blob. */
  type Bytes = seq<Byte>

  const LEN32: int := 0x1_0000_0000

  /** Byte strings that fit MessagePack's 32-bit length field. */
  type Text = b: Bytes | |b| < LEN32 witness []

  /** A file name; file systems allow at most 255 bytes. */
  type FileName = b: Bytes | |b| <= 255 witness []

  /** A SHA-256 digest. */
  type Hash = h: Bytes | |h| == 32 witness seq(32, _ => 0)

  const U64_MOD: int := 0x1_0000_0000_0000_0000

  /** A 64-bit unsigned integer; sums of them wrap, as in a release build. */
  type U64 = x: int | 0 <= x < U64_MOD

  function WrapAdd(a: U64, b: U64): U64 {
    (a + b) % U64_MOD
  }

  /** The bytes of an ASCII literal. */
  function Ascii(s: string): (b: Bytes)
    ensures |b| == |s|
  {
    seq(|s|, i requires 0 <= i < |s| => s[i] as int % 256)
  }

  ghost predicate NoDup<T>(s: seq<T>) {
    forall i, j :: 0 <= i < j < |s| ==> s[i] != s[j]
  }

  ghost function Elements<T>(s: seq<T>): set<T> {
    set x | x in s
  }
}
