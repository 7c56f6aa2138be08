/**
  Region ageing and rejuvenation. A region's age counts the collection cycles
  it has survived and saturates at the object-header age limit; resetting it
  optionally folds the discarded age into the `youth` counter, which records
  epochs of retrograde ageing for the age census.
 */
module RegionAge {
  import opened MachineInts

  /** `markWord::max_age`: the largest age the 4-bit object-header age field holds. */
  const MaxAge: nat := 15

  /** The two `uint` ageing fields of a region. */
  datatype Ageing = Ageing(age: nat, youth: nat)

  predicate Valid(a: Ageing) {
    a.age <= MaxAge && IsUint32(a.youth)
  }

  /**
    One survived cycle. The source post-increments the age and, when the old
    value was already at the limit, clamps it back; it asserts that the age is
    never above the limit on entry.
   */
  function IncrementAge(a: Ageing): (r: Ageing)
    requires Valid(a)
    ensures Valid(r)
    ensures r.youth == a.youth
    ensures a.age < MaxAge ==> r.age == a.age + 1
    ensures a.age == MaxAge ==> r == a
  {
    var bumped := a.(age := a.age + 1);
    if a.age >= MaxAge then bumped.(age := MaxAge) else bumped
  }

  /**
    Rejuvenation. The age drops to zero; with census noise enabled the old age
    is added to `youth` (a `uint`, so the sum wraps).
   */
  function ResetAge(a: Ageing, censusNoise: bool): (r: Ageing)
    requires Valid(a)
    ensures Valid(r)
    ensures r.age == 0
    ensures !censusNoise ==> r.youth == a.youth
    ensures censusNoise && a.youth + a.age < Uint32Modulus ==> r.age + r.youth == a.age + a.youth
    ensures censusNoise && a.youth + a.age >= Uint32Modulus ==> r.youth == a.youth + a.age - Uint32Modulus
  {
    var youth := if censusNoise then Uint32Add(a.youth, a.age) else a.youth;
    Ageing(0, youth)
  }

  /** `clear_youth`: the census forgets past rejuvenation. */
  function ClearYouth(a: Ageing): (r: Ageing)
    requires Valid(a)
    ensures Valid(r) && r.age == a.age && r.youth == 0
  {
    a.(youth := 0)
  }

  /** `n` consecutive calls of `IncrementAge`. */
  function IncrementAgeTimes(a: Ageing, n: nat): (r: Ageing)
    requires Valid(a)
    ensures Valid(r)
    decreases n
  {
    if n == 0 then a else IncrementAgeTimes(IncrementAge(a), n - 1)
  }

  /** After `n` survived cycles the age is the old age plus `n`, saturated at the limit. */
  lemma {:induction false} IncrementAgeTimesSaturates(a: Ageing, n: nat)
    requires Valid(a)
    ensures IncrementAgeTimes(a, n).age == if a.age + n <= MaxAge then a.age + n else MaxAge
    ensures IncrementAgeTimes(a, n).youth == a.youth
    decreases n
  {
    if n > 0 {
      IncrementAgeTimesSaturates(IncrementAge(a), n - 1);
    }
  }

  /** Ageing is monotone until a reset: more cycles never give a younger region. */
  lemma {:induction false} IncrementAgeTimesMonotone(a: Ageing, m: nat, n: nat)
    requires Valid(a) && m <= n
    ensures IncrementAgeTimes(a, m).age <= IncrementAgeTimes(a, n).age
  {
    IncrementAgeTimesSaturates(a, m);
    IncrementAgeTimesSaturates(a, n);
  }
}
