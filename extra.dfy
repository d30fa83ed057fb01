/** The shared `Version` value type and its ordering (src/extra.rs). */
module Extra {
  import opened Wrappers
  import opened Native

  /** Rust's `std::cmp::Ordering`. */
  datatype Ordering = Less | Equal | Greater {

    /** `Ordering::reverse`: swaps `Less` and `Greater`. */
    function Reverse(): (o: Ordering)
      ensures o == Equal <==> this == Equal
      ensures this != Equal ==> o != this
    {
      match this
      case Less => Greater
      case Equal => Equal
      case Greater => Less
    }
  }

  /** `Ord::cmp` on an integer type such as `u32`. */
  function IntCmp(x: int, y: int): (o: Ordering)
    ensures o == Less <==> x < y
    ensures o == Equal <==> x == y
    ensures o == Greater <==> x > y
  {
    if x < y then Less else if x == y then Equal else Greater
  }

  /** Two-digit lexicographic comparison: comparing `hi * base + lo` as
      integers is comparing `hi` first and `lo` only on a tie. */
  lemma LexPair(hi1: int, lo1: int, hi2: int, lo2: int, base: int)
    requires 0 <= lo1 < base && 0 <= lo2 < base
    ensures IntCmp(hi1 * base + lo1, hi2 * base + lo2)
            == if hi1 != hi2 then IntCmp(hi1, hi2) else IntCmp(lo1, lo2)
  {
    if hi1 < hi2 {
      MulStep(hi1, hi2, base);
    } else if hi1 > hi2 {
      MulStep(hi2, hi1, base);
    }
  }

  lemma MulStep(lo: int, hi: int, base: int)
    requires lo < hi && base > 0
    ensures lo * base + base <= hi * base
  {
    var k := hi - lo - 1;
    assert hi == lo + 1 + k;
    assert hi * base == (lo + 1 + k) * base;
    assert (lo + 1 + k) * base == lo * base + base + k * base;
    assert k * base >= 0;
  }

  /** A version triple; equality is the derived field-wise `PartialEq`,
      which is Dafny's datatype equality. */
  datatype Version = Version(major: U32, minor: U32, patch: U32) {

    /** `Ord::cmp`: the majors decide, then the minors, then the patches. */
    function Cmp(other: Version): (o: Ordering)
      ensures o == Equal <==> this == other
    {
      match IntCmp(major, other.major)
      case Greater => Greater
      case Less => Less
      case Equal =>
        match IntCmp(minor, other.minor)
        case Greater => Greater
        case Less => Less
        case Equal =>
          match IntCmp(patch, other.patch)
          case Greater => Greater
          case Less => Less
          case Equal => Equal
    }

    /** `PartialOrd::partial_cmp`: always defined, and always `cmp`. */
    function PartialCmp(other: Version): (r: Option<Ordering>)
      ensures r.Some?
      ensures r.value == Cmp(other)
    {
      Some(Cmp(other))
    }

    /** The `<`, `<=`, `>` and `>=` operators: the default methods of
        `PartialOrd`, which look at `partial_cmp`. */
    predicate Lt(other: Version)
      ensures Lt(other) <==> Rank(this) < Rank(other)
    {
      CmpIsRankOrder(this, other);
      PartialCmp(other) == Some(Less)
    }

    predicate Le(other: Version)
      ensures Le(other) <==> Rank(this) <= Rank(other)
    {
      CmpIsRankOrder(this, other);
      PartialCmp(other) == Some(Less) || PartialCmp(other) == Some(Equal)
    }

    predicate Gt(other: Version)
      ensures Gt(other) <==> Rank(this) > Rank(other)
    {
      CmpIsRankOrder(this, other);
      PartialCmp(other) == Some(Greater)
    }

    predicate Ge(other: Version)
      ensures Ge(other) <==> Rank(this) >= Rank(other)
    {
      CmpIsRankOrder(this, other);
      PartialCmp(other) == Some(Greater) || PartialCmp(other) == Some(Equal)
    }
  }

  /** Reference order: a version read as the three-digit number
      `major minor patch` in base 2^32. */
  function Rank(v: Version): nat {
    (v.major * TWO_32 + v.minor) * TWO_32 + v.patch
  }

  /** `cmp` orders versions exactly as their ranks are ordered. */
  lemma CmpIsRankOrder(a: Version, b: Version)
    ensures a.Cmp(b) == IntCmp(Rank(a), Rank(b))
  {
    LexPair(a.major, a.minor, b.major, b.minor, TWO_32);
    LexPair(a.major * TWO_32 + a.minor, a.patch, b.major * TWO_32 + b.minor, b.patch, TWO_32);
  }

  /** The first field in which the versions differ decides the result. */
  lemma FirstDifferenceDecides(a: Version, b: Version)
    ensures a.major != b.major ==> a.Cmp(b) == IntCmp(a.major, b.major)
    ensures a.major == b.major && a.minor != b.minor ==> a.Cmp(b) == IntCmp(a.minor, b.minor)
    ensures a.major == b.major && a.minor == b.minor ==> a.Cmp(b) == IntCmp(a.patch, b.patch)
  {
  }

  /** When the majors differ, minors and patches are irrelevant. */
  lemma MajorAloneDecides(a: Version, b: Version, a': Version, b': Version)
    requires a.major != b.major && a'.major == a.major && b'.major == b.major
    ensures a.Cmp(b) == a'.Cmp(b')
  {
  }

  /** Antisymmetry: swapping the arguments reverses the answer. */
  lemma CmpAntisymmetric(a: Version, b: Version)
    ensures b.Cmp(a) == a.Cmp(b).Reverse()
  {
    CmpIsRankOrder(a, b);
    CmpIsRankOrder(b, a);
  }

  /** Transitivity of `Less`, of `Greater`, and of "not `Greater`". */
  lemma CmpTransitive(a: Version, b: Version, c: Version)
    ensures a.Cmp(b) == Less && b.Cmp(c) == Less ==> a.Cmp(c) == Less
    ensures a.Cmp(b) == Greater && b.Cmp(c) == Greater ==> a.Cmp(c) == Greater
    ensures a.Cmp(b) != Greater && b.Cmp(c) != Greater ==> a.Cmp(c) != Greater
  {
    CmpIsRankOrder(a, b);
    CmpIsRankOrder(b, c);
    CmpIsRankOrder(a, c);
  }

  /** `<` is a strict total order and `<=` a total order on versions. */
  lemma OperatorsTotalOrder(a: Version, b: Version, c: Version)
    ensures !a.Lt(a) && a.Le(a)
    ensures a.Lt(b) && b.Lt(c) ==> a.Lt(c)
    ensures a.Le(b) && b.Le(c) ==> a.Le(c)
    ensures a.Le(b) && b.Le(a) ==> a == b
    ensures a.Lt(b) || a == b || a.Gt(b)
    ensures a.Le(b) || b.Le(a)
  {
    CmpIsRankOrder(a, b);
    CmpIsRankOrder(b, a);
  }

  lemma OrderExamples()
    ensures Version(2, 0, 0).Gt(Version(1, 9, 9))
    ensures Version(1, 5, 0).Gt(Version(1, 4, 9))
    ensures Version(1, 0, 0).Cmp(Version(1, 0, 0)) == Equal
    ensures Version(1, 0, 0) == Version(1, 0, 0)
  {
  }
}
