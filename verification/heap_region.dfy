/**
  A single heap region: its fixed bounds, its allocation frontier `top`, its
  ageing counters and the coalesce-and-fill boundary used by the
  old-generation repair pass. Addresses are `HeapWord*` values, modelled as
  word indices; byte sizes are word distances times the heap word size.
 */
module HeapRegion {
  import opened RegionGeometry
  import MachineInts
  import RegionAge

  datatype Region = Region(
    bottom: nat,
    end: nat,
    top: nat,
    ageing: RegionAge.Ageing,
    coalesceAndFillBoundary: nat)

  /** The space invariant `bottom <= top <= end`. */
  predicate WellFormed(r: Region) {
    r.bottom <= r.top <= r.end
  }

  /** `byte_size(from, to)`: bytes between two word addresses. */
  function ByteSize(from: nat, to: nat): (n: nat)
    requires from <= to
    ensures n % HeapWordSize == 0
    ensures n == 0 <==> from == to
  {
    (to - from) * HeapWordSize
  }

  /** The bytes between `bottom` and `end`: a whole number of heap words, zero only for a degenerate region. */
  function Capacity(r: Region): (n: nat)
    requires WellFormed(r)
    ensures n % HeapWordSize == 0
    ensures n == 0 <==> r.bottom == r.end
  {
    ByteSize(r.bottom, r.end)
  }

  function Used(r: Region): (n: nat)
    requires WellFormed(r)
    ensures n <= Capacity(r)
  {
    ByteSize(r.bottom, r.top)
  }

  /** The bytes still available above `top`; together with `Used` they make up the capacity. */
  function Free(r: Region): (n: nat)
    requires WellFormed(r)
    ensures Used(r) + n == Capacity(r)
    ensures n == 0 <==> r.top == r.end
  {
    ByteSize(r.top, r.end)
  }

  /** Does the region's allocated part hold this address? */
  predicate Contains(r: Region, p: nat) {
    r.bottom <= p && p < r.top
  }

  /** The word addresses inside the region's bounds that `Contains` accepts. */
  function ContainedWords(r: Region): set<nat>
    requires WellFormed(r)
  {
    set p: nat | r.bottom <= p < r.end && Contains(r, p)
  }

  /** The contained addresses are exactly the allocated words: one word per `HeapWordSize` used bytes. */
  lemma ContainedWordsMatchUsed(r: Region)
    requires WellFormed(r)
    ensures ContainedWords(r) == WordRange(r.bottom, r.top)
    ensures |ContainedWords(r)| * HeapWordSize == Used(r)
    ensures Used(r) == 0 <==> ContainedWords(r) == {}
  {
    if r.bottom < r.top {
      assert r.bottom in ContainedWords(r);
    }
  }

  /** The word addresses from `lo` up to, but excluding, `hi`. */
  function WordRange(lo: nat, hi: nat): (s: set<nat>)
    ensures forall p :: p in s <==> lo <= p < hi
    ensures lo <= hi ==> |s| == hi - lo
    decreases hi - lo
  {
    if lo >= hi then {} else {lo} + WordRange(lo + 1, hi)
  }

  // ---- The preemptible coalesce-and-fill boundary ----

  /** Starting the pass puts the boundary at the bottom of the region and changes nothing else. */
  function BeginCoalesceAndFill(r: Region): (r': Region)
    ensures ResumeCoalesceAndFill(r') == r.bottom
    ensures r'.(coalesceAndFillBoundary := r.coalesceAndFillBoundary) == r
  {
    r.(coalesceAndFillBoundary := r.bottom)
  }

  /** Finishing the pass puts the boundary at the end of the region and changes nothing else. */
  function EndCoalesceAndFill(r: Region): (r': Region)
    ensures ResumeCoalesceAndFill(r') == r.end
    ensures r'.(coalesceAndFillBoundary := r.coalesceAndFillBoundary) == r
  {
    r.(coalesceAndFillBoundary := r.end)
  }

  /** Suspending records where the pass must pick up again and changes nothing else. */
  function SuspendCoalesceAndFill(r: Region, nextFocus: nat): (r': Region)
    ensures ResumeCoalesceAndFill(r') == nextFocus
    ensures r'.(coalesceAndFillBoundary := r.coalesceAndFillBoundary) == r
  {
    r.(coalesceAndFillBoundary := nextFocus)
  }

  /** Where a resumed pass continues. */
  function ResumeCoalesceAndFill(r: Region): nat {
    r.coalesceAndFillBoundary
  }

  /** The calls that move the boundary. */
  datatype BoundaryCall = Begin | End | Suspend(nextFocus: nat)

  function ApplyBoundaryCalls(r: Region, calls: seq<BoundaryCall>): (r': Region)
    ensures r'.bottom == r.bottom && r'.end == r.end
    decreases |calls|
  {
    if calls == [] then r
    else
      var next := match calls[0]
        case Begin => BeginCoalesceAndFill(r)
        case End => EndCoalesceAndFill(r)
        case Suspend(p) => SuspendCoalesceAndFill(r, p);
      ApplyBoundaryCalls(next, calls[1..])
  }

  /** The point a call leaves the boundary at. */
  function BoundaryAfter(r: Region, call: BoundaryCall): nat {
    match call
    case Begin => r.bottom
    case End => r.end
    case Suspend(p) => p
  }

  /**
    The boundary is a cursor: after any sequence of calls, resuming yields the
    point set by the last call, and everything else about the region is as before.
   */
  lemma {:induction false} ResumeReturnsLastPoint(r: Region, calls: seq<BoundaryCall>)
    requires |calls| >= 1
    ensures ResumeCoalesceAndFill(ApplyBoundaryCalls(r, calls)) == BoundaryAfter(r, calls[|calls| - 1])
    ensures ApplyBoundaryCalls(r, calls).(coalesceAndFillBoundary := r.coalesceAndFillBoundary) == r
    decreases |calls|
  {
    var next := match calls[0]
      case Begin => BeginCoalesceAndFill(r)
      case End => EndCoalesceAndFill(r)
      case Suspend(p) => SuspendCoalesceAndFill(r, p);
    assert ApplyBoundaryCalls(r, calls) == ApplyBoundaryCalls(next, calls[1..]);
    if |calls| > 1 {
      ResumeReturnsLastPoint(next, calls[1..]);
      assert calls[1..][|calls[1..]| - 1] == calls[|calls| - 1];
    }
  }

  // ---- Ageing, applied to a region ----

  /** A survived cycle ages the region and touches nothing else. */
  function IncrementAge(r: Region): (r': Region)
    requires RegionAge.Valid(r.ageing)
    ensures RegionAge.Valid(r'.ageing)
    ensures r'.ageing.youth == r.ageing.youth
    ensures r.ageing.age < RegionAge.MaxAge ==> r'.ageing.age == r.ageing.age + 1
    ensures r.ageing.age == RegionAge.MaxAge ==> r' == r
    ensures r'.(ageing := r.ageing) == r
  {
    r.(ageing := RegionAge.IncrementAge(r.ageing))
  }

  /** Rejuvenation resets the region's age and touches nothing else. */
  function ResetAge(r: Region, censusNoise: bool): (r': Region)
    requires RegionAge.Valid(r.ageing)
    ensures r'.ageing.age == 0
    ensures !censusNoise ==> r'.ageing.youth == r.ageing.youth
    ensures censusNoise ==> r'.ageing.youth == MachineInts.Uint32Add(r.ageing.youth, r.ageing.age)
    ensures r'.(ageing := r.ageing) == r
  {
    r.(ageing := RegionAge.ResetAge(r.ageing, censusNoise))
  }
}
