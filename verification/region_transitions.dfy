/**
  The region state machine: the legal transitions drawn in the state diagram
  of the region header, the design rules a) to i) that the diagram is meant to
  guarantee, and what those rules imply for whole sequences of transitions.
 */
module RegionTransitions {
  import opened RegionStates

  /**
    The directed edges of the diagram. First allocation takes either empty
    state to Regular or to one of the two humongous roles; reclamation takes
    Regular, Cset and the unpinned humongous states to Trash; recycling takes
    Trash back to committed-empty; only a committed-empty region is uncommitted.
   */
  predicate Legal(from: RegionState, to: RegionState) {
    match from
    case EmptyUncommitted => to == Regular || to == HumongousStart || to == HumongousCont
    case EmptyCommitted =>
      to == EmptyUncommitted || to == Regular || to == HumongousStart || to == HumongousCont
    case Regular => to == Pinned || to == Cset || to == Trash
    case Pinned => to == Regular
    case Cset => to == PinnedCset || to == Trash
    case PinnedCset => to == Pinned
    case HumongousStart => to == PinnedHumongousStart || to == Trash
    case PinnedHumongousStart => to == HumongousStart
    case HumongousCont => to == Trash
    case Trash => to == EmptyCommitted
  }

  /** Rules a) and b): a region becomes empty only by recycling, and is uncommitted only when empty and committed. */
  lemma EmptyOnlyByRecycling(from: RegionState, to: RegionState)
    requires Legal(from, to)
    ensures IsEmpty(to) && !IsEmpty(from) ==> from == Trash
    ensures to == EmptyUncommitted ==> from == EmptyCommitted
    ensures from == Trash ==> to == EmptyCommitted
  {
  }

  /** Rule c): the only way into the collection set is from Regular. */
  lemma OnlyRegularEntersCset(from: RegionState, to: RegionState)
    requires Legal(from, to)
    ensures IsCset(to) && !IsCset(from) ==> from == Regular
    ensures to == Cset ==> from == Regular
  {
  }

  /** Rules d) and e): a pinned region is never reclaimed and never enters the collection set. */
  lemma PinnedStaysPut(from: RegionState, to: RegionState)
    requires IsPinned(from) && Legal(from, to)
    ensures to != Trash
    ensures to != Cset
    ensures !IsCset(from) ==> !IsCset(to)
  {
  }

  /** Rules f), g) and h): humongous regions never take regular allocations nor enter the collection set, and only the start is pinnable. */
  lemma HumongousStaysHumongous(from: RegionState, to: RegionState)
    requires IsHumongous(from) && Legal(from, to)
    ensures IsHumongous(to) || to == Trash
    ensures !IsAllocAllowed(to) && !IsCset(to)
    ensures IsPinned(to) ==> from == HumongousStart
    ensures from == HumongousCont ==> to == Trash
  {
  }

  /** Rule h), positive half: a humongous start can be pinned and unpinned. */
  lemma HumongousStartPinnable()
    ensures Legal(HumongousStart, PinnedHumongousStart)
    ensures Legal(PinnedHumongousStart, HumongousStart)
  {
  }

  /** Rule i): an empty region never goes to Trash. */
  lemma EmptyNeverTrashed(from: RegionState)
    requires IsEmpty(from)
    ensures !Legal(from, Trash)
  {
  }

  /** No state transitions to itself: every legal edge changes the state. */
  lemma NoSelfLoops(s: RegionState)
    ensures !Legal(s, s)
  {
  }

  // ---- Sequences of transitions ----

  /** `p` is a walk along legal edges. */
  predicate IsPath(p: seq<RegionState>) {
    |p| <= 1 || (Legal(p[0], p[1]) && IsPath(p[1..]))
  }

  /** Rules a) and b) over any number of steps: a walk from a non-empty state to an empty one passes through Trash. */
  lemma {:induction false} EmptyAgainOnlyThroughTrash(p: seq<RegionState>)
    requires IsPath(p) && |p| >= 1
    requires !IsEmpty(p[0]) && IsEmpty(p[|p| - 1])
    ensures Trash in p
  {
    if p[0] != Trash {
      assert |p| >= 2;
      var q := p[1..];
      assert q[|q| - 1] == p[|p| - 1];
      if IsEmpty(q[0]) {
        EmptyOnlyByRecycling(p[0], p[1]);
      } else {
        EmptyAgainOnlyThroughTrash(q);
        assert Trash in q;
      }
    }
  }

  /** Rule c) over any number of steps: a walk from outside the collection set into it passes through Regular. */
  lemma {:induction false} CsetOnlyThroughRegular(p: seq<RegionState>)
    requires IsPath(p) && |p| >= 1
    requires !IsCset(p[0]) && IsCset(p[|p| - 1])
    ensures Regular in p
  {
    if p[0] != Regular {
      assert |p| >= 2;
      var q := p[1..];
      assert q[|q| - 1] == p[|p| - 1];
      if IsCset(q[0]) {
        OnlyRegularEntersCset(p[0], p[1]);
      } else {
        CsetOnlyThroughRegular(q);
        assert Regular in q;
      }
    }
  }

  /** Rule d) over any number of steps: a pinned region reaches Trash only after being unpinned to Regular or to a plain humongous start. */
  lemma {:induction false} PinnedReclaimedOnlyAfterUnpin(p: seq<RegionState>)
    requires IsPath(p) && |p| >= 1
    requires IsPinned(p[0]) && p[|p| - 1] == Trash
    ensures Regular in p || HumongousStart in p
  {
    assert |p| >= 2;
    var q := p[1..];
    assert q[|q| - 1] == p[|p| - 1];
    assert Legal(p[0], q[0]);
    if q[0] != Regular && q[0] != HumongousStart {
      assert IsPinned(q[0]);
      PinnedReclaimedOnlyAfterUnpin(q);
      assert Regular in q || HumongousStart in q;
    }
  }

  /**
    Rules f) and g) over any number of steps: a humongous region leaves the
    humongous group, and so becomes allocatable or enters the collection set,
    only through Trash.
   */
  lemma {:induction false} HumongousLeavesOnlyThroughTrash(p: seq<RegionState>)
    requires IsPath(p) && |p| >= 1
    requires IsHumongous(p[0]) && !IsHumongous(p[|p| - 1])
    ensures Trash in p
  {
    assert |p| >= 2;
    var q := p[1..];
    assert q[|q| - 1] == p[|p| - 1];
    HumongousStaysHumongous(p[0], p[1]);
    if q[0] != Trash {
      HumongousLeavesOnlyThroughTrash(q);
      assert Trash in q;
    }
  }

  /** Rule h) over any number of steps: a humongous continuation is pinned or moved only after it has been trashed. */
  lemma {:induction false} ContinuationPinnedOnlyAfterTrash(p: seq<RegionState>)
    requires IsPath(p) && |p| >= 1
    requires p[0] == HumongousCont
    requires IsPinned(p[|p| - 1]) || IsCset(p[|p| - 1])
    ensures Trash in p
  {
  }

  /** Rule i) over any number of steps: a walk from an empty state to Trash passes through an active state. */
  lemma {:induction false} TrashOnlyAfterActive(p: seq<RegionState>)
    requires IsPath(p) && |p| >= 1
    requires IsEmpty(p[0]) && p[|p| - 1] == Trash
    ensures exists i :: 0 <= i < |p| && IsActive(p[i])
  {
    assert |p| >= 2;
    var q := p[1..];
    assert q[|q| - 1] == p[|p| - 1];
    assert Legal(p[0], q[0]);
    if IsActive(q[0]) {
      assert IsActive(p[1]);
    } else {
      assert IsEmpty(q[0]);
      TrashOnlyAfterActive(q);
      var i :| 0 <= i < |q| && IsActive(q[i]);
      assert IsActive(p[i + 1]);
    }
  }

  /**
    Every state can be reached from the state of a freshly reserved,
    uncommitted region: the diagram has no dead states.
   */
  function PathFromUncommitted(s: RegionState): (p: seq<RegionState>)
    ensures IsPath(p) && |p| >= 1
    ensures p[0] == EmptyUncommitted && p[|p| - 1] == s
  {
    match s
    case EmptyUncommitted => [EmptyUncommitted]
    case Regular => [EmptyUncommitted, Regular]
    case HumongousStart => [EmptyUncommitted, HumongousStart]
    case HumongousCont => [EmptyUncommitted, HumongousCont]
    case PinnedHumongousStart => [EmptyUncommitted, HumongousStart, PinnedHumongousStart]
    case Cset => [EmptyUncommitted, Regular, Cset]
    case Pinned => [EmptyUncommitted, Regular, Pinned]
    case PinnedCset => [EmptyUncommitted, Regular, Cset, PinnedCset]
    case Trash => [EmptyUncommitted, Regular, Trash]
    case EmptyCommitted => [EmptyUncommitted, Regular, Trash, EmptyCommitted]
  }

  /** Every state can eventually be reclaimed: there is a walk from it to Trash. */
  function PathToTrash(s: RegionState): (p: seq<RegionState>)
    ensures IsPath(p) && |p| >= 1
    ensures p[0] == s && p[|p| - 1] == Trash
  {
    match s
    case EmptyUncommitted => [EmptyUncommitted, Regular, Trash]
    case EmptyCommitted => [EmptyCommitted, Regular, Trash]
    case Regular => [Regular, Trash]
    case HumongousStart => [HumongousStart, Trash]
    case HumongousCont => [HumongousCont, Trash]
    case PinnedHumongousStart => [PinnedHumongousStart, HumongousStart, Trash]
    case Cset => [Cset, Trash]
    case Pinned => [Pinned, Regular, Trash]
    case PinnedCset => [PinnedCset, Pinned, Regular, Trash]
    case Trash => [Trash]
  }
}
