/**
  The ten states a Shenandoah heap region can be in, the predicates that group
  them into the "Empty", "Active" and "Trash" phases, and the two encodings of a
  state as a number: its position in the enum and the separate diagnostic
  ordinal that protects against accidental re-ordering of the enum.
 */
module RegionStates {

  /** The region states, in the order the enum declares them. */
  datatype RegionState =
    | EmptyUncommitted      // empty, memory uncommitted
    | EmptyCommitted        // empty, memory committed
    | Regular               // used for regular allocations
    | HumongousStart        // first region of a humongous object
    | HumongousCont         // continuation region of a humongous object
    | PinnedHumongousStart  // humongous start that is also pinned
    | Cset                  // in the collection set
    | Pinned                // regular region that is pinned
    | PinnedCset            // in the collection set and pinned (evacuation failure path)
    | Trash                 // holds only garbage

  /** The enum's sentinel `_REGION_STATES_NUM`: how many states there are. */
  const RegionStatesNum: nat := 10

  /** Every state, listed in enum declaration order. */
  const AllStates: seq<RegionState> :=
    [EmptyUncommitted, EmptyCommitted, Regular, HumongousStart, HumongousCont,
     PinnedHumongousStart, Cset, Pinned, PinnedCset, Trash]

  /** The C++ enumerator value of a state: its position in the declaration. */
  function EnumValue(s: RegionState): (v: nat)
    ensures v < RegionStatesNum
    ensures AllStates[v] == s
  {
    match s
    case EmptyUncommitted => 0
    case EmptyCommitted => 1
    case Regular => 2
    case HumongousStart => 3
    case HumongousCont => 4
    case PinnedHumongousStart => 5
    case Cset => 6
    case Pinned => 7
    case PinnedCset => 8
    case Trash => 9
  }

  /** The diagnostic ordinal table, written independently of the enum order. */
  function StateOrdinal(s: RegionState): (o: int)
    ensures 0 <= o < RegionStatesNum
  {
    match s
    case EmptyUncommitted => 0
    case EmptyCommitted => 1
    case Regular => 2
    case HumongousStart => 3
    case HumongousCont => 4
    case Cset => 5
    case Pinned => 6
    case Trash => 7
    case PinnedCset => 8
    case PinnedHumongousStart => 9
  }

  /** Decodes a diagnostic ordinal back into the state it stands for. */
  function StateOfOrdinal(o: int): (s: RegionState)
    requires 0 <= o < RegionStatesNum
    ensures StateOrdinal(s) == o
  {
    if o == 0 then EmptyUncommitted
    else if o == 1 then EmptyCommitted
    else if o == 2 then Regular
    else if o == 3 then HumongousStart
    else if o == 4 then HumongousCont
    else if o == 5 then Cset
    else if o == 6 then Pinned
    else if o == 7 then Trash
    else if o == 8 then PinnedCset
    else PinnedHumongousStart
  }

  /** Decoding the ordinal of a state gives the state back, so the table is injective. */
  lemma OrdinalRoundTrip(s: RegionState)
    ensures StateOfOrdinal(StateOrdinal(s)) == s
  {
  }

  /** Distinct states have distinct ordinals; with the ensures of `StateOfOrdinal` the table is a bijection onto 0..9. */
  lemma OrdinalIsInjective(s: RegionState, t: RegionState)
    ensures StateOrdinal(s) == StateOrdinal(t) ==> s == t
  {
  }

  /** The ordinal agrees with the enum position on exactly six states; the table is not the enum order. */
  lemma OrdinalDiffersFromEnumOrder(s: RegionState)
    ensures StateOrdinal(s) == EnumValue(s) <==>
      s in {EmptyUncommitted, EmptyCommitted, Regular, HumongousStart, HumongousCont, PinnedCset}
  {
  }

  /** The human-readable name of a state. */
  function StateName(s: RegionState): (name: string)
    ensures |name| > 0
  {
    match s
    case EmptyUncommitted => "Empty Uncommitted"
    case EmptyCommitted => "Empty Committed"
    case Regular => "Regular"
    case HumongousStart => "Humongous Start"
    case HumongousCont => "Humongous Continuation"
    case PinnedHumongousStart => "Humongous Start, Pinned"
    case Cset => "Collection Set"
    case Pinned => "Pinned"
    case PinnedCset => "Collection Set, Pinned"
    case Trash => "Trash"
  }

  /** No two states share a name, so a report names the state unambiguously. */
  lemma StateNamesDistinct(s: RegionState, t: RegionState)
    ensures StateName(s) == StateName(t) ==> s == t
  {
  }

  // ---- Derived state predicates ----

  predicate IsEmpty(s: RegionState) {
    s == EmptyCommitted || s == EmptyUncommitted
  }

  predicate IsHumongousStart(s: RegionState) {
    s == HumongousStart || s == PinnedHumongousStart
  }

  /** Neither empty nor trash; these are the states of the diagram's "Active" box. */
  predicate IsActive(s: RegionState)
    ensures IsActive(s) <==>
      s in {Regular, HumongousStart, HumongousCont, PinnedHumongousStart, Cset, Pinned, PinnedCset}
  {
    !IsEmpty(s) && s != Trash
  }

  predicate IsHumongous(s: RegionState) {
    IsHumongousStart(s) || s == HumongousCont
  }

  predicate IsCommitted(s: RegionState) {
    s != EmptyUncommitted
  }

  predicate IsCset(s: RegionState) {
    s == Cset || s == PinnedCset
  }

  predicate IsPinned(s: RegionState)
    ensures IsPinned(s) ==> IsActive(s) && !(IsHumongous(s) && IsCset(s))
  {
    s == Pinned || s == PinnedCset || s == PinnedHumongousStart
  }

  /** May mutators allocate in a region in this state? */
  predicate IsAllocAllowed(s: RegionState)
    ensures IsAllocAllowed(s) <==> !IsHumongous(s) && !IsCset(s) && s != Trash
  {
    IsEmpty(s) || s == Regular || s == Pinned
  }

  /**
    May a stop-the-world full collection move this region? `humongousMoves` is
    the `ShenandoahHumongousMoves` flag.
   */
  predicate IsStwMoveAllowed(s: RegionState, humongousMoves: bool)
    ensures IsStwMoveAllowed(s, humongousMoves) <==>
      IsActive(s) && !IsPinned(s) && s != HumongousCont && (humongousMoves || !IsHumongous(s))
  {
    s == Regular || s == Cset || (humongousMoves && s == HumongousStart)
  }

  /** Every state is in exactly one phase, and only the uncommitted one lacks memory. */
  lemma PhasePartition(s: RegionState)
    ensures IsEmpty(s) || IsActive(s) || s == Trash
    ensures !(IsEmpty(s) && IsActive(s))
    ensures !(IsEmpty(s) && s == Trash)
    ensures !(IsActive(s) && s == Trash)
    ensures IsCommitted(s) <==> s != EmptyUncommitted
  {
  }

  /** How the pinned, collection-set and humongous groups overlap. */
  lemma GroupOverlaps(s: RegionState)
    ensures IsPinned(s) && IsCset(s) <==> s == PinnedCset
    ensures IsPinned(s) && IsHumongous(s) <==> s == PinnedHumongousStart
    ensures !(IsCset(s) && IsHumongous(s))
    ensures IsHumongous(s) ==> !IsAllocAllowed(s)
    ensures IsPinned(s) ==> !IsStwMoveAllowed(s, true) && !IsStwMoveAllowed(s, false)
  {
  }
}
