/** Choosing the disks of a stripe: eligibility, capacity groups shared by disks
    on one backing filesystem, reservation while choosing, and the capacity check
    each later shard write makes. A disk is named by its position in the
    metadata's disk table. */
module Placement {
  import opened Arithmetic
  import opened Wrappers

  datatype CapacitySource = AutoProbe | UserOverride

  /** `usable` covers everything eligibility asks besides capacity: online, not
      quarantined, not excluded, shard directory present. */
  datatype Disk = Disk(
    usable: bool,
    source: CapacitySource,
    backingFs: Option<string>,
    capacity: nat,
    used: nat,
    domain: string)

  datatype PlacementError = NotEnoughDisks(need: nat, have: nat)

  // ---------------------------------------------------------------------------
  // Capacity as the code computes it
  // ---------------------------------------------------------------------------

  predicate Shares(disk: Disk, fs: string) {
    disk.source.AutoProbe? && disk.backingFs == Some(fs)
  }

  function SharedUsed(disks: seq<Disk>, fs: string): nat {
    if disks == [] then 0
    else
      var last := disks[|disks| - 1];
      SharedUsed(disks[..|disks| - 1], fs) + if Shares(last, fs) then last.used else 0
  }

  function SharedCapacity(disks: seq<Disk>, fs: string): Option<nat> {
    if disks == [] then None
    else
      var best, last := SharedCapacity(disks[..|disks| - 1], fs), disks[|disks| - 1];
      if !Shares(last, fs) then best
      else if best.Some? && best.value > last.capacity then best
      else Some(last.capacity)
  }

  function EffectiveUsed(disks: seq<Disk>, d: nat): nat
    requires d < |disks|
  {
    if disks[d].source.UserOverride? || disks[d].backingFs.None? then disks[d].used
    else SharedUsed(disks, disks[d].backingFs.value)
  }

  function EffectiveCapacity(disks: seq<Disk>, d: nat): nat
    requires d < |disks|
  {
    if disks[d].source.UserOverride? || disks[d].backingFs.None? then disks[d].capacity
    else match SharedCapacity(disks, disks[d].backingFs.value)
      case Some(c) => c
      case None => disks[d].capacity
  }

  /** The check made before a shard is written; capacity 0 means unlimited. */
  predicate HasCapacity(disks: seq<Disk>, d: nat, required: nat)
    requires d < |disks|
  {
    EffectiveCapacity(disks, d) == 0 || Sat(EffectiveUsed(disks, d) + required) <= EffectiveCapacity(disks, d)
  }

  predicate Eligible(disks: seq<Disk>, d: nat, required: nat) {
    d < |disks| && disks[d].usable && HasCapacity(disks, d, required)
  }

  datatype Group = OnFs(fs: string) | OwnDisk(d: nat)

  function GroupOf(disks: seq<Disk>, d: nat): Group
    requires d < |disks|
  {
    if disks[d].source.AutoProbe? && disks[d].backingFs.Some? then OnFs(disks[d].backingFs.value) else OwnDisk(d)
  }

  // ---------------------------------------------------------------------------
  // Groups share one capacity and one usage
  // ---------------------------------------------------------------------------

  lemma {:induction false} MemberHasCapacity(disks: seq<Disk>, d: nat, fs: string)
    requires d < |disks| && Shares(disks[d], fs)
    ensures SharedCapacity(disks, fs).Some?
  {
    if d < |disks| - 1 { MemberHasCapacity(disks[..|disks| - 1], d, fs); }
  }

  lemma SameGroup(disks: seq<Disk>, d: nat, e: nat)
    requires d < |disks| && e < |disks| && GroupOf(disks, d) == GroupOf(disks, e)
    ensures EffectiveCapacity(disks, d) == EffectiveCapacity(disks, e)
    ensures EffectiveUsed(disks, d) == EffectiveUsed(disks, e)
  {
    if GroupOf(disks, d).OnFs? {
      MemberHasCapacity(disks, d, disks[d].backingFs.value);
    }
  }

  /** Disks on one filesystem have the largest capacity among them. */
  lemma {:induction false} SharedIsLargest(disks: seq<Disk>, fs: string)
    ensures SharedCapacity(disks, fs).None? <==> forall d | 0 <= d < |disks| :: !Shares(disks[d], fs)
    ensures SharedCapacity(disks, fs).Some? ==>
              var c := SharedCapacity(disks, fs).value;
              && (forall d | 0 <= d < |disks| && Shares(disks[d], fs) :: disks[d].capacity <= c)
              && exists d | 0 <= d < |disks| :: Shares(disks[d], fs) && disks[d].capacity == c
  {
    if disks != [] {
      var init, last := disks[..|disks| - 1], disks[|disks| - 1];
      SharedIsLargest(init, fs);
      assert forall d | 0 <= d < |init| :: init[d] == disks[d];
      if SharedCapacity(init, fs).Some? && SharedCapacity(disks, fs) == SharedCapacity(init, fs) {
        var d :| 0 <= d < |init| && Shares(init[d], fs) && init[d].capacity == SharedCapacity(init, fs).value;
        assert disks[d] == init[d];
      }
    }
  }

  // ---------------------------------------------------------------------------
  // What a set of disks may reserve
  // ---------------------------------------------------------------------------

  ghost predicate InRange(disks: seq<Disk>, chosen: seq<nat>) {
    forall i | 0 <= i < |chosen| :: chosen[i] < |disks|
  }

  ghost predicate AllEligible(disks: seq<Disk>, chosen: seq<nat>, required: nat) {
    forall i | 0 <= i < |chosen| :: Eligible(disks, chosen[i], required)
  }

  /** How many of the disks belong to a group. */
  ghost function InGroup(disks: seq<Disk>, chosen: seq<nat>, g: Group): nat
    requires InRange(disks, chosen)
  {
    if chosen == [] then 0
    else
      var last := chosen[|chosen| - 1];
      InGroup(disks, chosen[..|chosen| - 1], g) + if GroupOf(disks, last) == g then 1 else 0
  }

  /** Disk `d`'s group takes `n` shards on top of what it holds. */
  ghost predicate Takes(disks: seq<Disk>, d: nat, n: nat, required: nat)
    requires d < |disks|
  {
    EffectiveCapacity(disks, d) == 0 || Sat(EffectiveUsed(disks, d) + n * required) <= EffectiveCapacity(disks, d)
  }

  /** A set of eligible disks whose groups take one shard per member. */
  ghost predicate Feasible(disks: seq<Disk>, choice: set<nat>, required: nat) {
    && (forall d | d in choice :: Eligible(disks, d, required))
    && (forall d | d in choice ::
          Takes(disks, d, |set e | e in choice && GroupOf(disks, e) == GroupOf(disks, d)|, required))
  }

  ghost predicate Distinct(chosen: seq<nat>) {
    forall i, j | 0 <= i < j < |chosen| :: chosen[i] != chosen[j]
  }

  /** Each disk in turn still fits into its group behind the ones chosen before. */
  ghost predicate Admitted(disks: seq<Disk>, chosen: seq<nat>, required: nat) {
    && AllEligible(disks, chosen, required)
    && (forall n | 0 <= n < |chosen| :: AdmittedAt(disks, chosen, n, required))
  }

  ghost predicate AdmittedAt(disks: seq<Disk>, chosen: seq<nat>, n: nat, required: nat)
    requires n < |chosen| && InRange(disks, chosen)
  {
    Takes(disks, chosen[n], InGroup(disks, chosen[..n], GroupOf(disks, chosen[n])) + 1, required)
  }

  /** The reservations kept while choosing, per group with a limited capacity. */
  ghost predicate Tracks(disks: seq<Disk>, chosen: seq<nat>, reserved: map<Group, nat>, required: nat)
    requires InRange(disks, chosen)
  {
    forall d | 0 <= d < |disks| && EffectiveCapacity(disks, d) != 0 ::
      Reserved(reserved, GroupOf(disks, d)) == Sat(InGroup(disks, chosen, GroupOf(disks, d)) * required)
  }

  function Reserved(reserved: map<Group, nat>, g: Group): nat {
    if g in reserved then reserved[g] else 0
  }

  predicate CanReserve(disks: seq<Disk>, reserved: map<Group, nat>, d: nat, required: nat)
    requires d < |disks|
  {
    EffectiveCapacity(disks, d) == 0
    || Sat(Sat(EffectiveUsed(disks, d) + Reserved(reserved, GroupOf(disks, d))) + required)
       <= EffectiveCapacity(disks, d)
  }

  function Reserve(disks: seq<Disk>, reserved: map<Group, nat>, d: nat, required: nat): map<Group, nat>
    requires d < |disks|
  {
    if EffectiveCapacity(disks, d) == 0 then reserved
    else reserved[GroupOf(disks, d) := Sat(Reserved(reserved, GroupOf(disks, d)) + required)]
  }

  /** Saturating one reservation at a time is saturating once. */
  lemma SatTwice(used: nat, n: nat, required: nat)
    ensures Sat(Sat(used + Sat(n * required)) + required) == Sat(used + (n + 1) * required)
  {
    var product := n * required;
    assert (n + 1) * required == product + required;
  }

  lemma CanReserveMeans(disks: seq<Disk>, chosen: seq<nat>, reserved: map<Group, nat>, d: nat, required: nat)
    requires d < |disks| && InRange(disks, chosen) && Tracks(disks, chosen, reserved, required)
    ensures CanReserve(disks, reserved, d, required) <==>
            Takes(disks, d, InGroup(disks, chosen, GroupOf(disks, d)) + 1, required)
  {
    hide InGroup, EffectiveCapacity, EffectiveUsed, GroupOf, Sat;
    SatTwice(EffectiveUsed(disks, d), InGroup(disks, chosen, GroupOf(disks, d)), required);
  }

  lemma ReserveTracks(disks: seq<Disk>, chosen: seq<nat>, reserved: map<Group, nat>, d: nat, required: nat)
    requires d < |disks| && InRange(disks, chosen) && Tracks(disks, chosen, reserved, required)
    ensures Tracks(disks, chosen + [d], Reserve(disks, reserved, d, required), required)
  {
    assert (chosen + [d])[..|chosen|] == chosen;
    forall e | 0 <= e < |disks| && EffectiveCapacity(disks, e) != 0
      ensures Reserved(Reserve(disks, reserved, d, required), GroupOf(disks, e))
           == Sat(InGroup(disks, chosen + [d], GroupOf(disks, e)) * required)
    {
      var g := GroupOf(disks, e);
      var n := InGroup(disks, chosen, g);
      assert (n + 1) * required == n * required + required;
      if GroupOf(disks, d) == g { SameGroup(disks, d, e); }
    }
  }

  lemma AdmitSnoc(disks: seq<Disk>, chosen: seq<nat>, d: nat, required: nat)
    requires Admitted(disks, chosen, required) && Eligible(disks, d, required)
    requires Takes(disks, d, InGroup(disks, chosen, GroupOf(disks, d)) + 1, required)
    ensures Admitted(disks, chosen + [d], required)
  {
    hide Takes, HasCapacity, InGroup;
    var more := chosen + [d];
    assert AllEligible(disks, more, required);
    forall n | 0 <= n < |more| ensures AdmittedAt(disks, more, n, required) {
      if n < |chosen| {
        assert AdmittedAt(disks, chosen, n, required);
        assert more[..n] == chosen[..n];
      } else {
        assert more[..n] == chosen;
      }
    }
  }

  // ---------------------------------------------------------------------------
  // Choosing
  // ---------------------------------------------------------------------------

  /** A score order over all disks: an arbitrary permutation. */
  ghost predicate IsRanking(disks: seq<Disk>, rank: seq<nat>) {
    Distinct(rank) && forall d :: d in rank <==> 0 <= d < |disks|
  }

  function EligibleIn(disks: seq<Disk>, rank: seq<nat>, required: nat): (scored: seq<nat>)
    requires Distinct(rank)
    ensures Distinct(scored) && forall d :: d in scored <==> d in rank && Eligible(disks, d, required)
  {
    if rank == [] then []
    else
      var scored, last := EligibleIn(disks, rank[..|rank| - 1], required), rank[|rank| - 1];
      if Eligible(disks, last, required) then scored + [last] else scored
  }

  /** What one pass over the ranked disks keeps true. */
  ghost predicate Choosing(disks: seq<Disk>, chosen: seq<nat>, reserved: map<Group, nat>, required: nat) {
    Admitted(disks, chosen, required) && Distinct(chosen) && Tracks(disks, chosen, reserved, required)
  }

  lemma NothingChosen(disks: seq<Disk>, required: nat)
    ensures Choosing(disks, [], map[], required)
  {
  }

  lemma DomainSnoc(disks: seq<Disk>, chosen: seq<nat>, d: nat, x: string)
    requires InRange(disks, chosen) && d < |disks|
    ensures UsesDomain(disks, chosen + [d], x) <==> UsesDomain(disks, chosen, x) || disks[d].domain == x
  {
    var more := chosen + [d];
    assert more[|chosen|] == d;
    if UsesDomain(disks, chosen, x) {
      var i :| 0 <= i < |chosen| && disks[chosen[i]].domain == x;
      assert more[i] == chosen[i];
    }
  }

  // ---------------------------------------------------------------------------
  // The greedy choice
  // ---------------------------------------------------------------------------

  /** One pass over ranked disks, best first, up to `count`: each disk is taken
      whose group still takes a shard, one per failure domain when spreading. */
  ghost function Pass(disks: seq<Disk>, ranked: seq<nat>, count: nat, required: nat, spreading: bool, start: seq<nat>)
    : (chosen: seq<nat>)
    requires InRange(disks, ranked) && InRange(disks, start)
    ensures InRange(disks, chosen) && start <= chosen
    decreases |ranked|
  {
    if ranked == [] then start
    else
      var chosen, d := Pass(disks, ranked[..|ranked| - 1], count, required, spreading, start), ranked[|ranked| - 1];
      if && |chosen| < count && d !in chosen && !Full(disks, chosen, d, required)
         && !(spreading && UsesDomain(disks, chosen, disks[d].domain))
      then chosen + [d] else chosen
  }

  /** A pass that spreads, then one that does not. */
  ghost function Greedy(disks: seq<Disk>, ranked: seq<nat>, count: nat, required: nat): (chosen: seq<nat>)
    requires InRange(disks, ranked)
    ensures InRange(disks, chosen)
  {
    Pass(disks, ranked, count, required, false, Pass(disks, ranked, count, required, true, []))
  }

  lemma {:induction false} PassEnds(disks: seq<Disk>, ranked: seq<nat>, count: nat, required: nat, spreading: bool,
                                    start: seq<nat>, n: nat)
    requires InRange(disks, ranked) && InRange(disks, start) && n <= |ranked|
    requires |Pass(disks, ranked[..n], count, required, spreading, start)| >= count
    ensures Pass(disks, ranked, count, required, spreading, start)
         == Pass(disks, ranked[..n], count, required, spreading, start)
    decreases |ranked|
  {
    hide Full, UsesDomain;
    if n < |ranked| {
      assert ranked[..|ranked| - 1][..n] == ranked[..n];
      PassEnds(disks, ranked[..|ranked| - 1], count, required, spreading, start, n);
    } else {
      assert ranked[..n] == ranked;
    }
  }

  /** `xs` is `ys` with elements left out. */
  ghost predicate Subsequence(xs: seq<nat>, ys: seq<nat>)
    decreases |ys|
  {
    || xs == []
    || (ys != [] && xs[|xs| - 1] == ys[|ys| - 1] && Subsequence(xs[..|xs| - 1], ys[..|ys| - 1]))
    || (ys != [] && Subsequence(xs, ys[..|ys| - 1]))
  }

  lemma {:induction false} SubsequenceTrans(xs: seq<nat>, ys: seq<nat>, zs: seq<nat>)
    requires Subsequence(xs, ys) && Subsequence(ys, zs)
    ensures Subsequence(xs, zs)
    decreases |zs|, |ys|
  {
    if xs != [] {
      var ys', zs' := ys[..|ys| - 1], zs[..|zs| - 1];
      if ys[|ys| - 1] == zs[|zs| - 1] && Subsequence(ys', zs') {
        if xs[|xs| - 1] == ys[|ys| - 1] && Subsequence(xs[..|xs| - 1], ys') {
          SubsequenceTrans(xs[..|xs| - 1], ys', zs');
        } else {
          SubsequenceTrans(xs, ys', zs');
        }
      } else {
        SubsequenceTrans(xs, ys, zs');
      }
    }
  }

  lemma {:induction false} EligibleInOrder(disks: seq<Disk>, rank: seq<nat>, required: nat)
    requires Distinct(rank)
    ensures Subsequence(EligibleIn(disks, rank, required), rank)
  {
    hide Eligible;
    if rank != [] {
      var init := rank[..|rank| - 1];
      EligibleInOrder(disks, init, required);
      var scored := EligibleIn(disks, init, required);
      assert (scored + [rank[|rank| - 1]])[..|scored|] == scored;
    }
  }

  lemma {:induction false} PassInOrder(disks: seq<Disk>, ranked: seq<nat>, count: nat, required: nat, spreading: bool,
                                       start: seq<nat>)
    requires InRange(disks, ranked) && InRange(disks, start)
    ensures Subsequence(Pass(disks, ranked, count, required, spreading, start)[|start|..], ranked)
    decreases |ranked|
  {
    hide Full, UsesDomain;
    if ranked != [] {
      var init, d := ranked[..|ranked| - 1], ranked[|ranked| - 1];
      PassInOrder(disks, init, count, required, spreading, start);
      var chosen := Pass(disks, init, count, required, spreading, start);
      var added := chosen[|start|..];
      assert (chosen + [d])[|start|..] == added + [d] && (added + [d])[..|added|] == added;
    }
  }

  ghost predicate OnePerDomain(disks: seq<Disk>, chosen: seq<nat>)
    requires InRange(disks, chosen)
  {
    forall i, j | 0 <= i < j < |chosen| :: disks[chosen[i]].domain != disks[chosen[j]].domain
  }

  lemma DomainsSnoc(disks: seq<Disk>, chosen: seq<nat>, d: nat)
    requires InRange(disks, chosen) && d < |disks|
    ensures InRange(disks, chosen + [d])
    ensures forall x :: UsesDomain(disks, chosen + [d], x) <==> UsesDomain(disks, chosen, x) || disks[d].domain == x
    ensures OnePerDomain(disks, chosen) && !UsesDomain(disks, chosen, disks[d].domain) ==>
              OnePerDomain(disks, chosen + [d])
  {
    forall x ensures UsesDomain(disks, chosen + [d], x) <==> UsesDomain(disks, chosen, x) || disks[d].domain == x {
      DomainSnoc(disks, chosen, d, x);
    }
  }

  lemma CanReserveIffRoom(disks: seq<Disk>, chosen: seq<nat>, reserved: map<Group, nat>, d: nat, required: nat)
    requires d < |disks| && InRange(disks, chosen) && Tracks(disks, chosen, reserved, required)
    ensures CanReserve(disks, reserved, d, required) <==> !Full(disks, chosen, d, required)
  {
    hide InGroup, Tracks, CanReserve, Takes;
    CanReserveMeans(disks, chosen, reserved, d, required);
  }

  lemma AdmitRoom(disks: seq<Disk>, chosen: seq<nat>, reserved: map<Group, nat>, d: nat, required: nat)
    requires Choosing(disks, chosen, reserved, required) && Eligible(disks, d, required) && d !in chosen
    requires !Full(disks, chosen, d, required)
    ensures Choosing(disks, chosen + [d], Reserve(disks, reserved, d, required), required)
  {
    hide InGroup, Tracks, Reserve, Takes, HasCapacity, AdmittedAt;
    AdmitSnoc(disks, chosen, d, required);
    ReserveTracks(disks, chosen, reserved, d, required);
  }

  /** First pass: at most one disk per failure domain. */
  method FirstPass(disks: seq<Disk>, scored: seq<nat>, count: nat, required: nat)
    returns (chosen: seq<nat>, reserved: map<Group, nat>)
    requires count > 0 && Distinct(scored) && AllEligible(disks, scored, required)
    ensures Choosing(disks, chosen, reserved, required) && |chosen| <= count
    ensures chosen == Pass(disks, scored, count, required, true, [])
    ensures OnePerDomain(disks, chosen)
    ensures |chosen| < count ==> forall k | 0 <= k < |scored| ::
              UsesDomain(disks, chosen, disks[scored[k]].domain) || Full(disks, chosen, scored[k], required)
  {
    hide Takes, HasCapacity, InGroup, EffectiveCapacity, EffectiveUsed, Reserve, CanReserve, Tracks, AdmittedAt,
         GroupOf, Pass, Full, UsesDomain;
    chosen, reserved := [], map[];
    NoDomains(disks);
    PassNothing(disks, count, required, true, []);
    NothingChosen(disks, required);
    var domains: set<string> := {};
    for k := 0 to |scored|
      invariant Choosing(disks, chosen, reserved, required) && |chosen| < count
      invariant chosen == Pass(disks, scored[..k], count, required, true, [])
      invariant forall i | 0 <= i < |chosen| :: chosen[i] in scored[..k]
      invariant forall x :: x in domains <==> UsesDomain(disks, chosen, x)
      invariant OnePerDomain(disks, chosen)
      invariant forall j | 0 <= j < k ::
        disks[scored[j]].domain in domains || Full(disks, chosen, scored[j], required)
    {
      var d := scored[k];
      assert Eligible(disks, d, required) && d !in scored[..k];
      CanReserveIffRoom(disks, chosen, reserved, d, required);
      PassStep(disks, scored, count, required, true, [], k);
      if !CanReserve(disks, reserved, d, required) || disks[d].domain in domains {
        continue;
      }
      domains := domains + {disks[d].domain};
      DomainsSnoc(disks, chosen, d);
      AdmitRoom(disks, chosen, reserved, d, required);
      StaysFull(disks, chosen, d, required);
      reserved := Reserve(disks, reserved, d, required);
      chosen := chosen + [d];
      if |chosen| == count {
        PassEnds(disks, scored, count, required, true, [], k + 1);
        return;
      }
    }
    assert scored[..|scored|] == scored;
  }

  lemma NoDomains(disks: seq<Disk>)
    ensures forall x :: !UsesDomain(disks, [], x)
  {
  }

  lemma PassNothing(disks: seq<Disk>, count: nat, required: nat, spreading: bool, start: seq<nat>)
    requires InRange(disks, start)
    ensures Pass(disks, [], count, required, spreading, start) == start
  {
  }

  lemma PassStep(disks: seq<Disk>, ranked: seq<nat>, count: nat, required: nat, spreading: bool, start: seq<nat>,
                 k: nat)
    requires InRange(disks, ranked) && InRange(disks, start) && k < |ranked|
    ensures InRange(disks, ranked[..k]) && InRange(disks, ranked[..k + 1])
    ensures var chosen, d := Pass(disks, ranked[..k], count, required, spreading, start), ranked[k];
            Pass(disks, ranked[..k + 1], count, required, spreading, start) ==
              if && |chosen| < count && d !in chosen && !Full(disks, chosen, d, required)
                 && !(spreading && UsesDomain(disks, chosen, disks[d].domain))
              then chosen + [d] else chosen
  {
    assert ranked[..k + 1][..k] == ranked[..k];
  }

  ghost predicate UsesDomain(disks: seq<Disk>, chosen: seq<nat>, domain: string)
    requires InRange(disks, chosen)
  {
    exists i | 0 <= i < |chosen| :: disks[chosen[i]].domain == domain
  }

  /** The group of `d` takes no further shard beside those chosen. */
  ghost predicate Full(disks: seq<Disk>, chosen: seq<nat>, d: nat, required: nat)
    requires d < |disks| && InRange(disks, chosen)
  {
    !Takes(disks, d, InGroup(disks, chosen, GroupOf(disks, d)) + 1, required)
  }

  /** A group that is full stays full. */
  lemma StaysFull(disks: seq<Disk>, chosen: seq<nat>, d: nat, required: nat)
    requires d < |disks| && InRange(disks, chosen)
    ensures InRange(disks, chosen + [d])
    ensures forall e | 0 <= e < |disks| && Full(disks, chosen, e, required) :: Full(disks, chosen + [d], e, required)
  {
    assert (chosen + [d])[..|chosen|] == chosen;
    forall e | 0 <= e < |disks| && Full(disks, chosen, e, required)
      ensures Full(disks, chosen + [d], e, required)
    {
      var n := InGroup(disks, chosen, GroupOf(disks, e));
      assert (n + 2) * required == (n + 1) * required + required;
    }
  }

  /** Second pass: whatever still fits. */
  method SecondPass(disks: seq<Disk>, scored: seq<nat>, count: nat, required: nat,
                    first: seq<nat>, initial: map<Group, nat>)
    returns (chosen: seq<nat>)
    requires count > 0 && Distinct(scored) && AllEligible(disks, scored, required)
    requires Choosing(disks, first, initial, required) && |first| < count
    ensures Admitted(disks, chosen, required) && Distinct(chosen) && |chosen| <= count && first <= chosen
    ensures chosen == Pass(disks, scored, count, required, false, first)
    ensures forall e | 0 <= e < |disks| && Full(disks, first, e, required) :: Full(disks, chosen, e, required)
    ensures |chosen| < count ==> forall k | 0 <= k < |scored| && scored[k] !in chosen ::
              Full(disks, chosen, scored[k], required)
  {
    hide Takes, HasCapacity, InGroup, EffectiveCapacity, EffectiveUsed, Reserve, CanReserve, Tracks, AdmittedAt,
         GroupOf, Pass, Full, UsesDomain;
    chosen := first;
    PassNothing(disks, count, required, false, first);
    var reserved := initial;
    for k := 0 to |scored|
      invariant Choosing(disks, chosen, reserved, required) && |chosen| < count && first <= chosen
      invariant chosen == Pass(disks, scored[..k], count, required, false, first)
      invariant forall e | 0 <= e < |disks| && Full(disks, first, e, required) :: Full(disks, chosen, e, required)
      invariant forall j | 0 <= j < k && scored[j] !in chosen :: Full(disks, chosen, scored[j], required)
    {
      var d := scored[k];
      assert Eligible(disks, d, required);
      PassStep(disks, scored, count, required, false, first, k);
      if d in chosen {
        continue;
      }
      CanReserveIffRoom(disks, chosen, reserved, d, required);
      if !CanReserve(disks, reserved, d, required) {
        continue;
      }
      AdmitRoom(disks, chosen, reserved, d, required);
      StaysFull(disks, chosen, d, required);
      reserved := Reserve(disks, reserved, d, required);
      chosen := chosen + [d];
      if |chosen| == count {
        PassEnds(disks, scored, count, required, false, first, k + 1);
        return;
      }
    }
    assert scored[..|scored|] == scored;
  }

  // ---------------------------------------------------------------------------
  // Choosing succeeds exactly when a feasible choice exists
  // ---------------------------------------------------------------------------

  ghost function Members(disks: seq<Disk>, choice: set<nat>, g: Group): set<nat> {
    set e | e in choice && e < |disks| && GroupOf(disks, e) == g
  }

  ghost function Chosen(chosen: seq<nat>): set<nat> { set d | d in chosen }

  lemma {:induction false} ChosenSize(chosen: seq<nat>)
    requires Distinct(chosen)
    ensures |Chosen(chosen)| == |chosen|
  {
    if chosen != [] {
      var init, last := chosen[..|chosen| - 1], chosen[|chosen| - 1];
      ChosenSize(init);
      assert Chosen(chosen) == Chosen(init) + {last};
    } else {
      assert Chosen(chosen) == {};
    }
  }

  lemma MembersAdd(disks: seq<Disk>, choice: set<nat>, d: nat, g: Group)
    requires d < |disks| && d !in choice
    ensures |Members(disks, choice + {d}, g)| == |Members(disks, choice, g)| + if GroupOf(disks, d) == g then 1 else 0
  {
    if GroupOf(disks, d) == g {
      assert Members(disks, choice + {d}, g) == Members(disks, choice, g) + {d};
    } else {
      assert Members(disks, choice + {d}, g) == Members(disks, choice, g);
    }
  }

  lemma {:induction false} ChosenMembers(disks: seq<Disk>, chosen: seq<nat>, g: Group)
    requires Distinct(chosen) && InRange(disks, chosen)
    ensures |Members(disks, Chosen(chosen), g)| == InGroup(disks, chosen, g)
  {
    hide GroupOf, Members;
    if chosen != [] {
      var init, last := chosen[..|chosen| - 1], chosen[|chosen| - 1];
      ChosenMembers(disks, init, g);
      assert last !in init;
      MembersAdd(disks, Chosen(init), last, g);
      assert Chosen(chosen) == Chosen(init) + {last};
    } else {
      NoMembers(disks, g);
      assert Chosen(chosen) == {};
    }
  }

  lemma NoMembers(disks: seq<Disk>, g: Group)
    ensures Members(disks, {}, g) == {}
  {
  }

  /** A sequence admitted disk by disk fits as a whole. */
  lemma {:induction false} AdmittedFits(disks: seq<Disk>, chosen: seq<nat>, required: nat, i: nat)
    requires Admitted(disks, chosen, required) && i < |chosen|
    ensures Takes(disks, chosen[i], InGroup(disks, chosen, GroupOf(disks, chosen[i])), required)
  {
    hide Takes, HasCapacity, EffectiveCapacity, EffectiveUsed;
    var n := |chosen| - 1;
    var init, last := chosen[..n], chosen[n];
    assert AdmittedAt(disks, chosen, n, required);
    if i == n {
    } else if GroupOf(disks, last) == GroupOf(disks, chosen[i]) {
      GroupTakes(disks, last, chosen[i], InGroup(disks, chosen, GroupOf(disks, last)), required);
    } else {
      AdmittedPrefix(disks, chosen, required);
      AdmittedFits(disks, init, required, i);
    }
  }

  lemma GroupTakes(disks: seq<Disk>, d: nat, e: nat, n: nat, required: nat)
    requires d < |disks| && e < |disks| && GroupOf(disks, d) == GroupOf(disks, e)
    ensures Takes(disks, d, n, required) <==> Takes(disks, e, n, required)
  {
    SameGroup(disks, d, e);
  }

  lemma AdmittedPrefix(disks: seq<Disk>, chosen: seq<nat>, required: nat)
    requires Admitted(disks, chosen, required) && chosen != []
    ensures Admitted(disks, chosen[..|chosen| - 1], required)
  {
    hide Takes, HasCapacity, InGroup;
    var init := chosen[..|chosen| - 1];
    forall n | 0 <= n < |init| ensures AdmittedAt(disks, init, n, required) {
      assert AdmittedAt(disks, chosen, n, required);
      assert init[..n] == chosen[..n];
    }
  }

  lemma AdmittedFeasible(disks: seq<Disk>, chosen: seq<nat>, required: nat)
    requires Admitted(disks, chosen, required) && Distinct(chosen)
    ensures Feasible(disks, Chosen(chosen), required) && |Chosen(chosen)| == |chosen|
  {
    hide Takes, HasCapacity, InGroup;
    var choice := Chosen(chosen);
    ChosenSize(chosen);
    forall d | d in choice
      ensures Takes(disks, d, |set e | e in choice && GroupOf(disks, e) == GroupOf(disks, d)|, required)
    {
      var i :| 0 <= i < |chosen| && chosen[i] == d;
      AdmittedFits(disks, chosen, required, i);
      var g := GroupOf(disks, d);
      ChosenMembers(disks, chosen, g);
      assert (set e | e in choice && GroupOf(disks, e) == g) == Members(disks, choice, g);
    }
  }

  /** Group by group no more elements means no more elements. */
  lemma {:induction false} CountByGroup(disks: seq<Disk>, a: set<nat>, b: set<nat>)
    requires (forall d | d in a :: d < |disks|) && (forall d | d in b :: d < |disks|)
    requires forall d | d in a :: |Members(disks, a, GroupOf(disks, d))| <= |Members(disks, b, GroupOf(disks, d))|
    ensures |a| <= |b|
    decreases a
  {
    if a != {} {
      var d :| d in a;
      var g := GroupOf(disks, d);
      var ag, bg := Members(disks, a, g), Members(disks, b, g);
      forall e | e in a - ag
        ensures |Members(disks, a - ag, GroupOf(disks, e))| <= |Members(disks, b - bg, GroupOf(disks, e))|
      {
        assert Members(disks, a - ag, GroupOf(disks, e)) == Members(disks, a, GroupOf(disks, e));
        assert Members(disks, b - bg, GroupOf(disks, e)) == Members(disks, b, GroupOf(disks, e));
      }
      assert d in ag;
      CountByGroup(disks, a - ag, b - bg);
      assert |a| == |a - ag| + |ag| && |b| == |b - bg| + |bg|;
    }
  }

  /** When every disk left over belongs to a full group, no feasible choice is larger. */
  lemma FullMeansMaximal(disks: seq<Disk>, chosen: seq<nat>, required: nat, choice: set<nat>)
    requires AllEligible(disks, chosen, required) && Distinct(chosen) && Feasible(disks, choice, required)
    requires forall d | d in choice && d !in chosen :: Full(disks, chosen, d, required)
    ensures |choice| <= |chosen|
  {
    var mine := Chosen(chosen);
    ChosenSize(chosen);
    forall d | d in choice
      ensures |Members(disks, choice, GroupOf(disks, d))| <= |Members(disks, mine, GroupOf(disks, d))|
    {
      var g := GroupOf(disks, d);
      ChosenMembers(disks, chosen, g);
      if e :| e in Members(disks, choice, g) && e !in chosen {
        FullBounds(disks, chosen, required, choice, e);
      } else {
        Subset(Members(disks, choice, g), Members(disks, mine, g));
      }
    }
    assert forall d | d in choice :: Eligible(disks, d, required);
    CountByGroup(disks, choice, mine);
  }

  lemma FullBounds(disks: seq<Disk>, chosen: seq<nat>, required: nat, choice: set<nat>, e: nat)
    requires InRange(disks, chosen) && Feasible(disks, choice, required) && e in choice
    requires Full(disks, chosen, e, required)
    ensures |Members(disks, choice, GroupOf(disks, e))| <= InGroup(disks, chosen, GroupOf(disks, e))
  {
    hide HasCapacity, InGroup, Takes;
    var g := GroupOf(disks, e);
    var n, m := InGroup(disks, chosen, g), |Members(disks, choice, g)|;
    assert (set x | x in choice && GroupOf(disks, x) == g) == Members(disks, choice, g);
    if m > n {
      TakesFewer(disks, e, m, n + 1, required);
    }
  }

  lemma TakesFewer(disks: seq<Disk>, d: nat, m: nat, n: nat, required: nat)
    requires d < |disks| && n <= m && Takes(disks, d, m, required)
    ensures Takes(disks, d, n, required)
  {
    MulMono(n, m, required);
  }

  lemma EligibleInRange(disks: seq<Disk>, rank: seq<nat>, required: nat)
    requires Distinct(rank)
    ensures AllEligible(disks, EligibleIn(disks, rank, required), required)
    ensures InRange(disks, EligibleIn(disks, rank, required))
  {
    hide HasCapacity;
    var scored := EligibleIn(disks, rank, required);
    forall i | 0 <= i < |scored| ensures Eligible(disks, scored[i], required) { assert scored[i] in scored; }
  }

  /** The greedy choice among the eligible disks. */
  ghost function GreedyChoice(disks: seq<Disk>, rank: seq<nat>, count: nat, required: nat): (chosen: seq<nat>)
    requires Distinct(rank)
    ensures InRange(disks, chosen)
  {
    EligibleInRange(disks, rank, required);
    Greedy(disks, EligibleIn(disks, rank, required), count, required)
  }

  /** Two disks share a failure domain only when every eligible disk of an unused
      domain belongs to a group that is full. */
  ghost predicate SpreadOut(disks: seq<Disk>, chosen: seq<nat>, required: nat)
    requires InRange(disks, chosen)
  {
    OnePerDomain(disks, chosen)
    || forall d: nat | Eligible(disks, d, required) && !UsesDomain(disks, chosen, disks[d].domain) ::
         Full(disks, chosen, d, required)
  }

  /** A part with one disk per failure domain, then the rest, each best first. */
  ghost predicate InTwoParts(disks: seq<Disk>, rank: seq<nat>, chosen: seq<nat>)
    requires InRange(disks, chosen)
  {
    exists n: nat :: n <= |chosen| && PartsAt(disks, rank, chosen, n)
  }

  ghost predicate PartsAt(disks: seq<Disk>, rank: seq<nat>, chosen: seq<nat>, n: nat)
    requires InRange(disks, chosen) && n <= |chosen|
  {
    OnePerDomain(disks, chosen[..n]) && Subsequence(chosen[..n], rank) && Subsequence(chosen[n..], rank)
  }

  lemma GreedyInParts(disks: seq<Disk>, rank: seq<nat>, count: nat, required: nat, first: seq<nat>)
    requires Distinct(rank) && InRange(disks, EligibleIn(disks, rank, required))
    requires first == Pass(disks, EligibleIn(disks, rank, required), count, required, true, [])
    requires OnePerDomain(disks, first)
    ensures InTwoParts(disks, rank, GreedyChoice(disks, rank, count, required))
  {
    hide Pass, Eligible;
    var scored, chosen := EligibleIn(disks, rank, required), GreedyChoice(disks, rank, count, required);
    EligibleInOrder(disks, rank, required);
    PassInOrder(disks, scored, count, required, true, []);
    PassInOrder(disks, scored, count, required, false, first);
    assert first[0..] == first;
    assert chosen[..|first|] == first;
    SubsequenceTrans(first, scored, rank);
    SubsequenceTrans(chosen[|first|..], scored, rank);
    assert PartsAt(disks, rank, chosen, |first|);
  }

  lemma DomainStays(disks: seq<Disk>, first: seq<nat>, chosen: seq<nat>, x: string)
    requires InRange(disks, first) && InRange(disks, chosen) && first <= chosen
    ensures UsesDomain(disks, first, x) ==> UsesDomain(disks, chosen, x)
  {
    assert forall i | 0 <= i < |first| :: chosen[i] == first[i];
  }

  lemma SpreadBeside(disks: seq<Disk>, scored: seq<nat>, first: seq<nat>, chosen: seq<nat>, required: nat)
    requires AllEligible(disks, scored, required) && InRange(disks, first) && InRange(disks, chosen) && first <= chosen
    requires forall d: nat | Eligible(disks, d, required) :: d in scored
    requires forall k | 0 <= k < |scored| ::
               UsesDomain(disks, first, disks[scored[k]].domain) || Full(disks, first, scored[k], required)
    requires forall e | 0 <= e < |disks| && Full(disks, first, e, required) :: Full(disks, chosen, e, required)
    ensures SpreadOut(disks, chosen, required)
  {
    hide Full, HasCapacity, UsesDomain;
    forall d: nat | Eligible(disks, d, required) && !UsesDomain(disks, chosen, disks[d].domain)
      ensures Full(disks, chosen, d, required)
    {
      var k :| 0 <= k < |scored| && scored[k] == d;
      DomainStays(disks, first, chosen, disks[d].domain);
    }
  }

  /** Full already: a second pass changes nothing. */
  lemma PassFull(disks: seq<Disk>, ranked: seq<nat>, count: nat, required: nat, start: seq<nat>)
    requires InRange(disks, ranked) && InRange(disks, start) && |start| >= count
    ensures Pass(disks, ranked, count, required, false, start) == start
  {
    PassNothing(disks, count, required, false, start);
    assert ranked[..0] == [];
    PassEnds(disks, ranked, count, required, false, start, 0);
  }

  lemma PassOne(disks: seq<Disk>, required: nat, d: nat)
    requires Eligible(disks, d, required)
    ensures Greedy(disks, [d], 1, required) == [d]
  {
    hide HasCapacity, Takes, InGroup, Pass, GroupOf;
    SingleAdmitted(disks, d, required);
    assert AdmittedAt(disks, [d], 0, required);
    assert [d][..0] == [] && [d][..1] == [d];
    PassNothing(disks, 1, required, true, []);
    PassStep(disks, [d], 1, required, true, [], 0);
    NoDomains(disks);
    assert [] + [d] == [d];
    PassFull(disks, [d], 1, required, [d]);
  }

  /** A single eligible disk is the greedy choice. */
  lemma OnlyChoice(disks: seq<Disk>, rank: seq<nat>, required: nat, d: nat)
    requires IsRanking(disks, rank) && Eligible(disks, d, required)
    requires forall e: nat | Eligible(disks, e, required) :: e == d
    ensures GreedyChoice(disks, rank, 1, required) == [d]
    ensures PartsAt(disks, rank, [d], 1) && SpreadOut(disks, [d], required)
  {
    hide HasCapacity, Greedy, Subsequence, EligibleIn, UsesDomain, Full;
    var scored := EligibleIn(disks, rank, required);
    EligibleInRange(disks, rank, required);
    assert d in scored;
    OneElement(scored, d);
    PassOne(disks, required, d);
    EligibleInOrder(disks, rank, required);
    assert [d][..1] == [d] && [d][1..] == [];
    NothingIsSubsequence(rank);
  }

  lemma NothingIsSubsequence(ys: seq<nat>)
    ensures Subsequence([], ys)
  {
  }

  lemma OneElement(xs: seq<nat>, d: nat)
    requires Distinct(xs) && d in xs && forall x | x in xs :: x == d
    ensures xs == [d]
  {
    ChosenSize(xs);
    assert Chosen(xs) == {d};
    assert xs[0] in xs;
  }

  /** The placement of a stripe. It succeeds exactly when some feasible choice of
      that many disks exists, and then returns that many distinct eligible disks,
      each of which fits behind the ones before it: the greedy choice in rank
      order, spread over failure domains as far as capacity allows. */
  method ChooseDisks(disks: seq<Disk>, rank: seq<nat>, count: nat, required: nat)
    returns (r: Result<seq<nat>, PlacementError>)
    requires count > 0 && IsRanking(disks, rank)
    ensures r.Ok? ==> |r.value| == count && Distinct(r.value) && Admitted(disks, r.value, required)
    ensures r.Ok? <==> exists choice: set<nat> :: |choice| == count && Feasible(disks, choice, required)
    ensures r.Ok? ==> r.value == GreedyChoice(disks, rank, count, required)
    ensures r.Ok? ==> SpreadOut(disks, r.value, required) && InTwoParts(disks, rank, r.value)
    ensures r.Err? ==>
              var eligible := |EligibleIn(disks, rank, required)|;
              r.error == NotEnoughDisks(count, if eligible < count then eligible
                                               else |GreedyChoice(disks, rank, count, required)|)
  {
    hide Takes, HasCapacity, InGroup, Feasible, Full, AdmittedAt, Pass, PartsAt, UsesDomain;
    if count == 1 {
      var only := OnlyEligible(disks, required);
      if only.Some? {
        OnlyChoice(disks, rank, required, only.value);
        assert PartsAt(disks, rank, [only.value], 1);
        SingleAdmitted(disks, only.value, required);
        AdmittedFeasible(disks, [only.value], required);
        return Ok([only.value]);
      }
    }
    var scored := EligibleIn(disks, rank, required);
    EligibleInRange(disks, rank, required);
    if |scored| < count {
      TooFew(disks, scored, required, count);
      return Err(NotEnoughDisks(count, |scored|));
    }
    var first, reserved := FirstPass(disks, scored, count, required);
    GreedyInParts(disks, rank, count, required, first);
    if |first| == count {
      PassFull(disks, scored, count, required, first);
      AdmittedFeasible(disks, first, required);
      return Ok(first);
    }
    var chosen := SecondPass(disks, scored, count, required, first, reserved);
    if |chosen| == count {
      SpreadBeside(disks, scored, first, chosen, required);
      AdmittedFeasible(disks, chosen, required);
      return Ok(chosen);
    }
    NoneLarger(disks, scored, chosen, required, count);
    r := Err(NotEnoughDisks(count, |chosen|));
  }

  lemma TooFew(disks: seq<Disk>, scored: seq<nat>, required: nat, count: nat)
    requires Distinct(scored) && |scored| < count
    requires forall d: nat :: d in scored <==> Eligible(disks, d, required)
    ensures !exists choice: set<nat> :: |choice| == count && Feasible(disks, choice, required)
  {
    forall choice: set<nat> | Feasible(disks, choice, required) ensures |choice| < count {
      ChosenSize(scored);
      Subset(choice, Chosen(scored));
    }
  }

  lemma NoneLarger(disks: seq<Disk>, scored: seq<nat>, chosen: seq<nat>, required: nat, count: nat)
    requires (forall d: nat :: d in scored <==> Eligible(disks, d, required))
    requires AllEligible(disks, chosen, required) && Distinct(chosen) && |chosen| < count
    requires AllEligible(disks, scored, required)
    requires forall k | 0 <= k < |scored| && scored[k] !in chosen :: Full(disks, chosen, scored[k], required)
    ensures !exists choice: set<nat> :: |choice| == count && Feasible(disks, choice, required)
  {
    hide Full, Takes, HasCapacity;
    forall choice: set<nat> | Feasible(disks, choice, required) ensures |choice| < count {
      forall d | d in choice && d !in chosen ensures Full(disks, chosen, d, required) {
        assert Eligible(disks, d, required);
        var k :| 0 <= k < |scored| && scored[k] == d;
      }
      FullMeansMaximal(disks, chosen, required, choice);
    }
  }

  /** The shortcut for single-shard stripes: the one eligible disk, if it is one. */
  method OnlyEligible(disks: seq<Disk>, required: nat) returns (only: Option<nat>)
    ensures only.Some? ==>
              Eligible(disks, only.value, required) && forall e: nat | Eligible(disks, e, required) :: e == only.value
    ensures only.Some? <==>
            exists d: nat :: Eligible(disks, d, required) && forall e: nat | Eligible(disks, e, required) :: e == d
  {
    hide HasCapacity;
    only := None;
    for d := 0 to |disks|
      invariant only.None? ==> forall e: nat | e < d :: !Eligible(disks, e, required)
      invariant only.Some? ==>
                  only.value < d && forall e: nat | e < d :: Eligible(disks, e, required) <==> e == only.value
    {
      if !Eligible(disks, d, required) {
        continue;
      }
      if only.Some? {
        assert Eligible(disks, only.value, required) && Eligible(disks, d, required) && only.value != d;
        return None;
      }
      only := Some(d);
    }
  }

  lemma SingleAdmitted(disks: seq<Disk>, d: nat, required: nat)
    requires Eligible(disks, d, required)
    ensures Admitted(disks, [d], required) && Distinct([d])
  {
    assert [d][..0] == [];
    assert AdmittedAt(disks, [d], 0, required);
  }

  // ---------------------------------------------------------------------------
  // Admission is not revoked mid-stripe
  // ---------------------------------------------------------------------------

  /** Accounting for a shard written on the host backend. */
  function AfterWrite(disks: seq<Disk>, d: nat, length: nat): seq<Disk>
    requires d < |disks|
  {
    disks[d := disks[d].(used := Sat(disks[d].used + length))]
  }

  /** The first `n` shards of the stripe written. */
  function AfterWrites(disks: seq<Disk>, chosen: seq<nat>, lengths: seq<nat>, n: nat): (r: seq<Disk>)
    requires n <= |chosen| && n <= |lengths| && (forall i | 0 <= i < |chosen| :: chosen[i] < |disks|)
    ensures |r| == |disks|
  {
    if n == 0 then disks
    else AfterWrite(AfterWrites(disks, chosen, lengths, n - 1), chosen[n - 1], lengths[n - 1])
  }

  /** Writing changes usage only. */
  ghost predicate SameShape(a: seq<Disk>, b: seq<Disk>) {
    |a| == |b| && forall i | 0 <= i < |a| :: a[i].(used := 0) == b[i].(used := 0)
  }

  lemma {:induction false} SameSharedCapacity(a: seq<Disk>, b: seq<Disk>, fs: string)
    requires SameShape(a, b)
    ensures SharedCapacity(a, fs) == SharedCapacity(b, fs)
  {
    if a != [] {
      var n := |a| - 1;
      assert a[n].(used := 0) == b[n].(used := 0);
      SameSharedCapacity(a[..n], b[..n], fs);
    }
  }

  lemma SameCapacity(a: seq<Disk>, b: seq<Disk>, d: nat)
    requires SameShape(a, b) && d < |a|
    ensures EffectiveCapacity(a, d) == EffectiveCapacity(b, d) && GroupOf(a, d) == GroupOf(b, d)
  {
    assert a[d].(used := 0) == b[d].(used := 0);
    if a[d].backingFs.Some? { SameSharedCapacity(a, b, a[d].backingFs.value); }
  }

  lemma {:induction false} SharedUsedGrows(disks: seq<Disk>, d: nat, length: nat, fs: string)
    requires d < |disks|
    ensures SharedUsed(AfterWrite(disks, d, length), fs)
            <= SharedUsed(disks, fs) + if Shares(disks[d], fs) then length else 0
  {
    var n := |disks| - 1;
    var after := AfterWrite(disks, d, length);
    if d < n {
      assert after[..n] == AfterWrite(disks[..n], d, length);
      SharedUsedGrows(disks[..n], d, length, fs);
    } else {
      assert after[..n] == disks[..n];
    }
  }

  /** A write adds its length to its own group and nothing to the others. */
  lemma UsedGrows(disks: seq<Disk>, d: nat, length: nat, e: nat)
    requires d < |disks| && e < |disks|
    ensures EffectiveUsed(AfterWrite(disks, d, length), e)
            <= EffectiveUsed(disks, e) + if GroupOf(disks, d) == GroupOf(disks, e) then length else 0
  {
    if disks[e].backingFs.Some? { SharedUsedGrows(disks, d, length, disks[e].backingFs.value); }
  }

  lemma {:induction false} WritesKeepShape(disks: seq<Disk>, chosen: seq<nat>, lengths: seq<nat>, n: nat)
    requires n <= |chosen| && n <= |lengths| && InRange(disks, chosen)
    ensures SameShape(disks, AfterWrites(disks, chosen, lengths, n))
  {
    if n > 0 { WritesKeepShape(disks, chosen, lengths, n - 1); }
  }

  lemma InGroupSnoc(disks: seq<Disk>, chosen: seq<nat>, n: nat, g: Group, required: nat)
    requires InRange(disks, chosen) && n < |chosen|
    ensures InGroup(disks, chosen[..n + 1], g) * required
            == InGroup(disks, chosen[..n], g) * required + if GroupOf(disks, chosen[n]) == g then required else 0
  {
    assert chosen[..n + 1][..n] == chosen[..n];
    var m := InGroup(disks, chosen[..n], g);
    assert (m + 1) * required == m * required + required;
  }

  lemma {:induction false} UsedAfterWrites(disks: seq<Disk>, chosen: seq<nat>, lengths: seq<nat>, required: nat, n: nat,
                                           e: nat)
    requires n <= |chosen| && n <= |lengths| && InRange(disks, chosen) && e < |disks|
    requires forall i | 0 <= i < |lengths| :: lengths[i] <= required
    ensures EffectiveUsed(AfterWrites(disks, chosen, lengths, n), e)
            <= EffectiveUsed(disks, e) + InGroup(disks, chosen[..n], GroupOf(disks, e)) * required
  {
    hide EffectiveUsed, EffectiveCapacity, GroupOf, InGroup, SameShape, AfterWrite;
    if n == 0 {
      NoneInGroup(disks, chosen[..0], GroupOf(disks, e), required);
    } else {
      var before := AfterWrites(disks, chosen, lengths, n - 1);
      UsedAfterWrites(disks, chosen, lengths, required, n - 1, e);
      UsedGrows(before, chosen[n - 1], lengths[n - 1], e);
      WritesKeepShape(disks, chosen, lengths, n - 1);
      SameCapacity(disks, before, e);
      SameCapacity(disks, before, chosen[n - 1]);
      InGroupSnoc(disks, chosen, n - 1, GroupOf(disks, e), required);
    }
  }

  lemma NoneInGroup(disks: seq<Disk>, chosen: seq<nat>, g: Group, required: nat)
    requires chosen == []
    ensures InGroup(disks, chosen, g) * required == 0
  {
  }

  /** Usage behind `n` writes of the stripe stays within what was reserved. */
  lemma UsedWithinReservation(disks: seq<Disk>, chosen: seq<nat>, lengths: seq<nat>, required: nat, n: nat)
    requires Admitted(disks, chosen, required) && n < |chosen| == |lengths|
    requires forall i | 0 <= i < |lengths| :: lengths[i] <= required
    ensures var before, d := AfterWrites(disks, chosen, lengths, n), chosen[n];
            && EffectiveCapacity(before, d) == EffectiveCapacity(disks, d)
            && (EffectiveCapacity(disks, d) == 0
                || Sat(EffectiveUsed(before, d) + required) <= EffectiveCapacity(disks, d))
  {
    hide EffectiveUsed, EffectiveCapacity, GroupOf, InGroup, SameShape, AfterWrites;
    var d := chosen[n];
    assert AdmittedAt(disks, chosen, n, required);
    UsedAfterWrites(disks, chosen, lengths, required, n, d);
    WritesKeepShape(disks, chosen, lengths, n);
    SameCapacity(disks, AfterWrites(disks, chosen, lengths, n), d);
    var m := InGroup(disks, chosen[..n], GroupOf(disks, d));
    assert (m + 1) * required == m * required + required;
  }

  /** Every shard write of a placed stripe passes the capacity check made at that
      moment, whatever was written before it, and leaves its group within its
      capacity. */
  lemma AdmissionHolds(disks: seq<Disk>, chosen: seq<nat>, lengths: seq<nat>, required: nat, n: nat)
    requires Admitted(disks, chosen, required) && n < |chosen| == |lengths|
    requires forall i | 0 <= i < |lengths| :: lengths[i] <= required
    ensures HasCapacity(AfterWrites(disks, chosen, lengths, n), chosen[n], lengths[n])
    ensures var after := AfterWrites(disks, chosen, lengths, n + 1);
            EffectiveCapacity(after, chosen[n]) == 0
            || Sat(EffectiveUsed(after, chosen[n])) <= EffectiveCapacity(after, chosen[n])
  {
    hide EffectiveUsed, EffectiveCapacity, GroupOf, InGroup, SameShape, AfterWrite;
    var before, d := AfterWrites(disks, chosen, lengths, n), chosen[n];
    UsedWithinReservation(disks, chosen, lengths, required, n);
    UsedGrows(before, d, lengths[n], d);
    WritesKeepShape(disks, chosen, lengths, n + 1);
    SameCapacity(disks, AfterWrites(disks, chosen, lengths, n + 1), d);
  }
}
