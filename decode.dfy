/** The two integer encodings of a version that the bindings decode.
    The driver/runtime scheme is written out in src/cuda.rs, twice in
    src/cudart.rs and, on a `usize`, in src/cudnn.rs; the cuDNN scheme once,
    in src/cudnn.rs. */
module Decode {
  import opened Native
  import opened Extra

  /** Driver/runtime scheme on a `c_int`: `(v / 1000) as u32`,
      `((v % 1000) / 10) as u32` and patch 0, with Rust's signed `/` and `%`. */
  function DriverScheme(raw: CInt): (v: Version)
    ensures v.patch == 0
    ensures raw >= 0 ==> v.major == raw / 1000 && v.minor == (raw % 1000) / 10
    ensures raw >= 0 ==> v.major <= 2147483 && v.minor <= 99
  {
    Version(AsU32(TruncDiv(raw, 1000)), AsU32(TruncDiv(TruncRem(raw, 1000), 10)), 0)
  }

  /** The encoding the driver and runtime use: 1000 * major + 10 * minor. */
  function DriverEncode(v: Version): int {
    v.major * 1000 + v.minor * 10
  }

  /** Decoding a non-negative value loses only its last decimal digit. */
  lemma DriverSchemeRoundTrip(raw: CInt)
    requires raw >= 0
    ensures DriverEncode(DriverScheme(raw)) + raw % 10 == raw
  {
    var v := DriverScheme(raw);
    assert raw == 1000 * (raw / 1000) + raw % 1000;
    assert raw % 1000 == 10 * ((raw % 1000) / 10) + (raw % 1000) % 10;
    assert (raw % 1000) % 10 == raw % 10 by {
      assert raw == 10 * (100 * (raw / 1000) + (raw % 1000) / 10) + (raw % 1000) % 10;
      assert 0 <= (raw % 1000) % 10 < 10;
    }
  }

  /** Encoding a version of the scheme's shape and decoding it gives it back. */
  lemma DriverSchemeOfEncode(v: Version)
    requires v.patch == 0 && v.minor <= 99
    requires DriverEncode(v) < 0x8000_0000
    ensures DriverScheme(DriverEncode(v)) == v
  {
    var raw := DriverEncode(v);
    DivModUnique(raw, 1000, v.major, v.minor * 10);
    DivModUnique(v.minor * 10, 10, v.minor, 0);
  }

  lemma DivModUnique(a: int, d: int, q: int, r: int)
    requires d > 0 && 0 <= r < d && a == q * d + r
    ensures a / d == q && a % d == r
  {
    var q', r' := a / d, a % d;
    assert a == q' * d + r';
    if q' < q {
      MulStep(q', q, d);
    } else if q < q' {
      MulStep(q, q', d);
    }
  }

  /** Decoded driver versions compare as their raw values with the last digit
      dropped: the decoding is monotone and identifies exactly the values that
      differ only in that digit. */
  lemma DriverSchemeOrder(a: CInt, b: CInt)
    requires a >= 0 && b >= 0
    ensures DriverScheme(a).Cmp(DriverScheme(b)) == IntCmp(a / 10, b / 10)
  {
    var va, vb := DriverScheme(a), DriverScheme(b);
    TensSplit(a);
    TensSplit(b);
    LexPair(va.major, va.minor, vb.major, vb.minor, 100);
  }

  lemma TensSplit(raw: CInt)
    requires raw >= 0
    ensures raw / 10 == 100 * DriverScheme(raw).major + DriverScheme(raw).minor
  {
    DriverSchemeRoundTrip(raw);
    var v := DriverScheme(raw);
    DivModUnique(raw, 10, 100 * v.major + v.minor, raw % 10);
  }

  /** A negative value below -999 decodes by wrap-around to a major near
      2^32 (the smallest, from `i32::MIN`, is 2^32 - 2147483), so it outranks
      every version a non-negative value decodes to. */
  lemma NegativeDriverValueOutranks(raw: CInt, other: CInt)
    requires raw <= -1000 && other >= 0
    ensures DriverScheme(raw).major >= TWO_32 - 2147483
    ensures DriverScheme(raw).Cmp(DriverScheme(other)) == Greater
  {
    var q := TruncDiv(raw, 1000);
    assert -2147483 <= q <= -1 by {
      assert q == -((-(raw as int)) / 1000);
    }
    assert AsU32(q) == q + TWO_32;
  }

  /** A value from -999 to -10 keeps major 0, but its negative truncated
      minor wraps to just below 2^32: -10 decodes to 0.4294967295.0. */
  lemma NegativeDriverValueWrapsMinor(raw: CInt)
    requires -1000 < raw <= -10
    ensures DriverScheme(raw) == Version(0, TWO_32 - (-(raw as int)) / 10, 0)
    ensures raw == -10 ==> DriverScheme(raw) == Version(0, 4294967295, 0)
  {
    assert TruncDiv(raw, 1000) == 0;
    assert TruncRem(raw, 1000) == raw;
    var q := TruncDiv(raw, 10);
    assert q == -((-(raw as int)) / 10);
    assert -99 <= q <= -1;
    assert AsU32(q) == q + TWO_32;
  }

  lemma DriverSchemeExamples()
    ensures DriverScheme(11020) == Version(11, 2, 0)
    ensures DriverScheme(9010) == Version(9, 1, 0)
  {
  }

  /** cuDNN's own scheme on a `usize`: `(v / 1000) as u32`,
      `((v % 1000) / 100) as u32` and `(v % 100) as u32`; on unsigned values
      Rust's `/` and `%` agree with Dafny's. */
  function CudnnScheme(raw: USize): (v: Version)
    ensures v.minor <= 9 && v.patch <= 99
    ensures raw < 1000 * TWO_32 ==> v.major == raw / 1000
    ensures v.minor == (raw % 1000) / 100 && v.patch == raw % 100
  {
    Version(AsU32(raw / 1000), AsU32((raw % 1000) / 100), AsU32(raw % 100))
  }

  /** The encoding cuDNN uses: 1000 * major + 100 * minor + patch. */
  function CudnnEncode(v: Version): int {
    v.major * 1000 + v.minor * 100 + v.patch
  }

  /** Below 1000 * 2^32 nothing wraps and decoding loses nothing. */
  lemma CudnnSchemeRoundTrip(raw: USize)
    requires raw < 1000 * TWO_32
    ensures CudnnEncode(CudnnScheme(raw)) == raw
  {
    assert raw == 1000 * (raw / 1000) + raw % 1000;
    var m := raw % 1000;
    assert m == 100 * (m / 100) + m % 100;
    assert m % 100 == raw % 100 by {
      DivModUnique(raw, 100, 10 * (raw / 1000) + m / 100, m % 100);
    }
  }

  lemma CudnnSchemeOfEncode(v: Version)
    requires v.minor <= 9 && v.patch <= 99
    ensures 0 <= CudnnEncode(v) < 1000 * TWO_32
    ensures CudnnScheme(CudnnEncode(v)) == v
  {
    var raw := CudnnEncode(v);
    DivModUnique(raw, 1000, v.major, v.minor * 100 + v.patch);
    DivModUnique(v.minor * 100 + v.patch, 100, v.minor, v.patch);
    DivModUnique(raw, 100, v.major * 10 + v.minor, v.patch);
  }

  /** Below the wrap-around bound decoded cuDNN versions compare exactly as
      their raw values. */
  lemma CudnnSchemeOrder(a: USize, b: USize)
    requires a < 1000 * TWO_32 && b < 1000 * TWO_32
    ensures CudnnScheme(a).Cmp(CudnnScheme(b)) == IntCmp(a, b)
  {
    var va, vb := CudnnScheme(a), CudnnScheme(b);
    CudnnSchemeRoundTrip(a);
    CudnnSchemeRoundTrip(b);
    LexPair(va.minor, va.patch, vb.minor, vb.patch, 100);
    LexPair(va.major, va.minor * 100 + va.patch, vb.major, vb.minor * 100 + vb.patch, 1000);
  }

  /** At 1000 * 2^32 the major wraps to 0: the raw value decodes like 0. */
  lemma CudnnSchemeWraps()
    ensures CudnnScheme(1000 * TWO_32) == CudnnScheme(0) == Version(0, 0, 0)
  {
  }

  lemma CudnnSchemeExamples()
    ensures CudnnScheme(8904) == Version(8, 9, 4)
    ensures CudnnScheme(8900) == Version(8, 9, 0)
  {
  }

  /** The driver/runtime scheme on a `usize`, which cuDNN uses for the
      runtime version it was built against. */
  function CudnnRuntimeScheme(raw: USize): (v: Version)
    ensures v.patch == 0 && v.minor <= 99
    ensures raw < 1000 * TWO_32 ==> v.major == raw / 1000
    ensures v.minor == (raw % 1000) / 10
  {
    Version(AsU32(raw / 1000), AsU32((raw % 1000) / 10), 0)
  }

  /** Below 1000 * 2^32 the major does not wrap and, as on a `c_int`,
      decoding loses only the last decimal digit. */
  lemma CudnnRuntimeSchemeRoundTrip(raw: USize)
    requires raw < 1000 * TWO_32
    ensures DriverEncode(CudnnRuntimeScheme(raw)) + raw % 10 == raw
  {
    assert raw == 1000 * (raw / 1000) + raw % 1000;
    var m := raw % 1000;
    assert m == 10 * (m / 10) + m % 10;
    assert m % 10 == raw % 10 by {
      DivModUnique(raw, 10, 100 * (raw / 1000) + m / 10, m % 10);
    }
  }

  /** Below the wrap-around bound, decoded runtime versions compare as the
      raw values with the last digit dropped. */
  lemma CudnnRuntimeSchemeOrder(a: USize, b: USize)
    requires a < 1000 * TWO_32 && b < 1000 * TWO_32
    ensures CudnnRuntimeScheme(a).Cmp(CudnnRuntimeScheme(b)) == IntCmp(a / 10, b / 10)
  {
    var va, vb := CudnnRuntimeScheme(a), CudnnRuntimeScheme(b);
    CudnnRuntimeSchemeRoundTrip(a);
    CudnnRuntimeSchemeRoundTrip(b);
    DivModUnique(a, 10, 100 * va.major + va.minor, a % 10);
    DivModUnique(b, 10, 100 * vb.major + vb.minor, b % 10);
    LexPair(va.major, va.minor, vb.major, vb.minor, 100);
  }

  /** On the values both can take, the `usize` and `c_int` forms agree. */
  lemma CudnnRuntimeAgreesWithDriver(raw: int)
    requires 0 <= raw < 0x8000_0000
    ensures CudnnRuntimeScheme(raw) == DriverScheme(raw)
  {
  }

  /** The two cuDNN decoders are different functions: 8904 has minor 9
      under the own-version scheme and minor 90 under the runtime one. */
  lemma CudnnSchemesDiffer()
    ensures CudnnScheme(8904).minor == 9
    ensures CudnnRuntimeScheme(8904).minor == 90
    ensures CudnnScheme(8904) != CudnnRuntimeScheme(8904)
  {
  }
}
