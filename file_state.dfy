/**
 * The value-level parts of a Cheapjack transfer record: its state enum with
 * the hand-written equality, its byte counters and the derived progress.
 */
module FileState {

  /** Swift's `Int64`, the type of both byte counters. */
  newtype int64 = x: int | -0x8000_0000_0000_0000 <= x < 0x8000_0000_0000_0000

  /** `CheapjackFile.Identifier` is a `String`. */
  type Identifier = string

  type Url = string

  /** The opaque `Data` a transport hands back when a transfer is paused. */
  type ResumeData = seq<bv8>

  /** A `URLRequest`; only the URL it fetches is of interest here. */
  datatype Request = Request(url: Url)

  /** `CheapjackFile.State`: seven cases, `paused` carrying resume bytes. */
  datatype State =
    | Unknown
    | Waiting
    | Downloading
    | Paused(data: ResumeData)
    | Finished
    | Cancelled
    | Failed

  /**
   * The `==` operator the library defines on states: case by case, and two
   * paused states compare their resume bytes. It coincides with structural
   * equality, so states made by different cases are never equal.
   */
  function Same(lhs: State, rhs: State): (r: bool)
    ensures r <==> lhs == rhs
  {
    match (lhs, rhs)
    case (Paused(data1), Paused(data2)) => data1 == data2
    case (Unknown, Unknown) => true
    case (Waiting, Waiting) => true
    case (Downloading, Downloading) => true
    case (Finished, Finished) => true
    case (Cancelled, Cancelled) => true
    case (Failed, Failed) => true
    case _ => false
  }

  /** Two paused states are equal exactly when their resume bytes are, and never equal a state of another case. */
  lemma SamePaused(data1: ResumeData, data2: ResumeData)
    ensures Same(Paused(data1), Paused(data2)) <==> data1 == data2
    ensures forall s: State :: !s.Paused? ==> !Same(Paused(data1), s) && !Same(s, Paused(data1))
  {
  }

  /**
   * The `progress` getter: written / expected when the expected total is
   * positive, and 0 otherwise (a transport reports an unknown total as a
   * non-positive number). Computed over the reals.
   */
  function Progress(written: int64, expected: int64): (p: real)
    ensures expected <= 0 ==> p == 0.0
    ensures expected > 0 ==> p * (expected as real) == written as real
  {
    if expected > 0 then (written as real) / (expected as real) else 0.0
  }

  /** With counters a well-behaved transport reports, progress lies in [0, 1]. */
  lemma ProgressInUnitInterval(written: int64, expected: int64)
    requires 0 <= written <= expected
    ensures 0.0 <= Progress(written, expected) <= 1.0
    ensures written == expected && expected > 0 ==> Progress(written, expected) == 1.0
  {
    if expected > 0 {
      var p, e, w := Progress(written, expected), expected as real, written as real;
      assert (p - 1.0) * e == w - e;
      assert (-p) * e == -w;
      PositiveProduct(p - 1.0, e);
      PositiveProduct(-p, e);
    }
  }

  /** Sign rule for a product of reals, the one piece of non-linear arithmetic needed above. */
  lemma PositiveProduct(a: real, b: real)
    ensures a > 0.0 && b > 0.0 ==> a * b > 0.0
  {
  }
}
