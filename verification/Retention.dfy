/**
 Retention of backup generations (scripts/persistence_backup.py): which ones
 `retained` keeps, why pruning as one goes loses nothing against keeping
 everything and evaluating the policy later, how many survive, and why a capture
 that was admitted still fits after rotation.
 */
module Retention {
  import opened Wrappers

  /** A published generation; `name` is its fixed-width directory name read as a number. */
  datatype Generation = Generation(name: nat, created: nat, bytes: nat)

  datatype Policy = Policy(hourly: nat, daily: nat, weekly: nat, maxBytes: nat)

  const HOUR: nat := 3600
  const DAY: nat := 86400
  const WEEK: nat := 604800

  /** Comparison by `(created, name)`. */
  predicate Newer(a: Generation, b: Generation) {
    a.created > b.created || (a.created == b.created && a.name > b.name)
  }

  /** What `generations` returns: newest first, by distinct names. */
  ghost predicate NewestFirst(items: seq<Generation>) {
    && (forall i, j | 0 <= i < j < |items| :: Newer(items[i], items[j]))
    && DistinctNames(All(items))
  }

  ghost function All(items: seq<Generation>): set<Generation> {
    set g | g in items
  }

  ghost predicate DistinctNames(all: set<Generation>) {
    forall g, h | g in all && h in all && g.name == h.name :: g == h
  }

  // ----- the policy, as a statement about a set of generations -----

  ghost predicate AmongNewestTwo(all: set<Generation>, g: Generation) {
    forall a, b | a in all && b in all && Newer(a, g) && Newer(b, g) :: a == b
  }

  predicate InWindow(seconds: nat, count: nat, now: nat, g: Generation)
    requires seconds > 0
  {
    0 <= now / seconds - g.created / seconds < count
  }

  ghost predicate NewestInBucket(all: set<Generation>, seconds: nat, g: Generation)
    requires seconds > 0
  {
    forall h | h in all && h.created / seconds == g.created / seconds :: h == g || Newer(g, h)
  }

  ghost predicate InTier(all: set<Generation>, seconds: nat, count: nat, now: nat, g: Generation)
    requires seconds > 0
  {
    InWindow(seconds, count, now, g) && NewestInBucket(all, seconds, g)
  }

  /** The newest two, and the newest of every recent hour, day and week. */
  ghost predicate Retains(all: set<Generation>, p: Policy, now: nat, g: Generation) {
    || AmongNewestTwo(all, g)
    || InTier(all, HOUR, p.hourly, now, g)
    || InTier(all, DAY, p.daily, now, g)
    || InTier(all, WEEK, p.weekly, now, g)
  }

  ghost function Retained(all: set<Generation>, p: Policy, now: nat): set<Generation> {
    set g | g in all && Retains(all, p, now, g)
  }

  ghost function Names(all: set<Generation>): set<nat> {
    set g | g in all :: g.name
  }

  // ----- `retained` -----

  /** The buckets that the first `i` generations occupy inside the window. */
  ghost function WindowBuckets(items: seq<Generation>, seconds: nat, count: nat, now: nat, i: nat): set<int>
    requires seconds > 0 && i <= |items|
  {
    set j | 0 <= j < i && InWindow(seconds, count, now, items[j]) :: items[j].created / seconds
  }

  ghost function TierNames(items: seq<Generation>, seconds: nat, count: nat, now: nat, i: nat): set<nat>
    requires seconds > 0 && i <= |items|
  {
    set j | 0 <= j < i && InTier(All(items), seconds, count, now, items[j]) :: items[j].name
  }

  /** One tier of `retained`: the first generation met in every bucket of the window. */
  method KeepTier(items: seq<Generation>, seconds: nat, count: nat, now: nat) returns (keep: set<nat>)
    requires NewestFirst(items) && seconds > 0
    ensures keep == TierNames(items, seconds, count, now, |items|)
  {
    var buckets: set<int> := {};
    keep := {};
    for i := 0 to |items|
      invariant buckets == WindowBuckets(items, seconds, count, now, i)
      invariant keep == TierNames(items, seconds, count, now, i)
    {
      var bucket := items[i].created / seconds;
      FirstOfBucket(items, seconds, count, now, i);
      if 0 <= now / seconds - bucket < count && bucket !in buckets {
        buckets := buckets + {bucket};
        keep := keep + {items[i].name};
      }
    }
  }

  /** In newest-first order the first generation of a bucket is its newest. */
  lemma {:induction false} FirstOfBucket(items: seq<Generation>, seconds: nat, count: nat, now: nat, i: nat)
    requires NewestFirst(items) && seconds > 0 && i < |items|
    ensures InTier(All(items), seconds, count, now, items[i]) <==>
            InWindow(seconds, count, now, items[i])
            && items[i].created / seconds !in WindowBuckets(items, seconds, count, now, i)
  {
    if NewestInBucket(All(items), seconds, items[i]) {
      forall j | 0 <= j < i
        ensures items[j].created / seconds != items[i].created / seconds
      {
        assert items[j] in All(items) && Newer(items[j], items[i]);
      }
    } else {
      var h :| h in All(items) && h.created / seconds == items[i].created / seconds && h != items[i]
          && !Newer(items[i], h);
      var j :| 0 <= j < |items| && items[j] == h;
      assert j < i;
      if InWindow(seconds, count, now, items[i]) {
        assert items[j].created / seconds in WindowBuckets(items, seconds, count, now, i);
      }
    }
  }

  lemma {:induction false} TierNamesMean(items: seq<Generation>, seconds: nat, count: nat, now: nat, g: Generation)
    requires NewestFirst(items) && seconds > 0 && g in items
    ensures g.name in TierNames(items, seconds, count, now, |items|) <==> InTier(All(items), seconds, count, now, g)
  {
    if g.name in TierNames(items, seconds, count, now, |items|) {
      var j :| 0 <= j < |items| && InTier(All(items), seconds, count, now, items[j]) && items[j].name == g.name;
      assert items[j] in All(items) && g in All(items);
    }
  }

  lemma {:induction false} FirstTwoAreNewestTwo(items: seq<Generation>, i: nat)
    requires NewestFirst(items) && i < |items|
    ensures AmongNewestTwo(All(items), items[i]) <==> i < 2
  {
    if i >= 2 {
      assert items[0] in All(items) && items[1] in All(items);
      assert Newer(items[0], items[i]) && Newer(items[1], items[i]) && Newer(items[0], items[1]);
    }
  }

  /** `retained`: exactly the names the policy keeps. */
  method KeptNames(items: seq<Generation>, p: Policy, now: nat) returns (keep: set<nat>)
    requires NewestFirst(items)
    ensures keep == Names(Retained(All(items), p, now))
    ensures forall g | g in items :: g.name in keep <==> g in Retained(All(items), p, now)
  {
    var newest: set<nat> := {};
    for i := 0 to |items|
      invariant newest == set j | 0 <= j < i && j < 2 :: items[j].name
    {
      if i < 2 {
        newest := newest + {items[i].name};
      }
    }
    var hourly := KeepTier(items, HOUR, p.hourly, now);
    var daily := KeepTier(items, DAY, p.daily, now);
    var weekly := KeepTier(items, WEEK, p.weekly, now);
    keep := newest + hourly + daily + weekly;
    forall g | g in items
      ensures g.name in keep <==> g in Retained(All(items), p, now)
    {
      NewestNamesMean(items, newest, g);
      TierNamesMean(items, HOUR, p.hourly, now, g);
      TierNamesMean(items, DAY, p.daily, now, g);
      TierNamesMean(items, WEEK, p.weekly, now, g);
    }
    assert keep == Names(Retained(All(items), p, now)) by {
      forall n | n in keep
        ensures exists g :: g in items && g.name == n
      {
      }
    }
  }

  lemma {:induction false} NewestNamesMean(items: seq<Generation>, newest: set<nat>, g: Generation)
    requires NewestFirst(items) && g in items
    requires newest == set j | 0 <= j < |items| && j < 2 :: items[j].name
    ensures g.name in newest <==> AmongNewestTwo(All(items), g)
  {
    var i :| 0 <= i < |items| && items[i] == g;
    FirstTwoAreNewestTwo(items, i);
    if g.name in newest {
      var j :| 0 <= j < |items| && j < 2 && items[j].name == g.name;
      assert items[j] in All(items) && g in All(items);
    }
  }

  // ----- pruning as one goes -----

  /** How far ahead of the clock `verify` lets a manifest's time be. */
  const CLOCK_SKEW: nat := 300

  /** Every generation passes `verify`'s test of its time when the root is listed at `now`. */
  ghost predicate Listable(all: set<Generation>, now: nat) {
    forall g | g in all :: Plausible(g, now)
  }

  predicate Plausible(g: Generation, now: nat) {
    g.created <= now + CLOCK_SKEW
  }

  /** What a later evaluation keeps of the old generations, the earlier one kept as well. */
  lemma {:induction false} KeptLaterWasKept(all: set<Generation>, later: set<Generation>, p: Policy, now: nat, due: nat,
                                            g: Generation)
    requires all <= later && now <= due && Listable(all, now)
    requires g in all && Retains(later, p, due, g)
    ensures Retains(all, p, now, g)
  {
    TierShrinks(all, later, HOUR, p.hourly, now, due, g);
    TierShrinks(all, later, DAY, p.daily, now, due, g);
    TierShrinks(all, later, WEEK, p.weekly, now, due, g);
  }

  lemma {:induction false} TierShrinks(all: set<Generation>, later: set<Generation>, seconds: nat, count: nat, now: nat,
                                       due: nat, g: Generation)
    requires all <= later && now <= due && seconds > CLOCK_SKEW && Listable(all, now) && g in all
    ensures InTier(later, seconds, count, due, g) ==> InTier(all, seconds, count, now, g) || AmongNewestTwo(all, g)
  {
    DivMonotone(now, due, seconds);
    if InTier(later, seconds, count, due, g) && g.created / seconds > now / seconds {
      forall h | h in all && Newer(h, g)
        ensures h == g
      {
        AheadIsOneBucket(seconds, now, g, h);
      }
    }
  }

  /** Two generations ahead of the clock's own bucket share the next one. */
  lemma {:induction false} AheadIsOneBucket(seconds: nat, now: nat, g: Generation, h: Generation)
    requires seconds > CLOCK_SKEW && Plausible(g, now) && Plausible(h, now)
    requires g.created / seconds > now / seconds && h.created >= g.created
    ensures h.created / seconds == g.created / seconds
  {
    var b, n := g.created / seconds, now / seconds;
    assert now < (n + 1) * seconds && b * seconds <= g.created;
    assert (n + 1) * seconds <= b * seconds by { ProductMonotone(n + 1, b, seconds); }
    assert h.created < b * seconds + seconds;
    DivMonotone(g.created, h.created, seconds);
    if h.created / seconds >= b + 1 {
      ProductMonotone(b + 1, h.created / seconds, seconds);
    }
  }

  lemma {:induction false} ProductMonotone(x: nat, y: nat, d: nat)
    requires x <= y
    ensures x * d <= y * d
  {
  }

  lemma {:induction false} DivMonotone(a: nat, b: nat, d: nat)
    requires a <= b && d > 0
    ensures a / d <= b / d
  {
    var q, r := a / d, b / d;
    assert q * d <= a && b < (r + 1) * d;
    LessFromProduct(q, r + 1, d);
  }

  lemma {:induction false} LessFromProduct(x: nat, y: nat, d: nat)
    requires x * d < y * d
    ensures x < y
  {
  }

  /** Anything between the kept set and the whole set evaluates to the kept set. */
  lemma {:induction false} RetainedFromSurvivors(all: set<Generation>, survivors: set<Generation>, p: Policy, now: nat)
    requires Retained(all, p, now) <= survivors <= all
    requires DistinctNames(all)
    ensures Retained(survivors, p, now) == Retained(all, p, now)
  {
    forall g | g in survivors
      ensures Retains(survivors, p, now, g) <==> Retains(all, p, now, g)
    {
      NewestTwoOfSurvivors(all, survivors, p, now, g);
      TierOfSurvivors(all, survivors, p, now, HOUR, p.hourly, g);
      TierOfSurvivors(all, survivors, p, now, DAY, p.daily, g);
      TierOfSurvivors(all, survivors, p, now, WEEK, p.weekly, g);
    }
  }

  /** The newest generation of a nonempty set. */
  lemma {:induction false} NewestExists(s: set<Generation>) returns (top: Generation)
    requires s != {} && DistinctNames(s)
    ensures top in s && forall h | h in s :: h == top || Newer(top, h)
  {
    var x :| x in s;
    if s == {x} {
      top := x;
    } else {
      var rest := NewestExists(s - {x});
      assert x.name != rest.name;
      top := if Newer(x, rest) then x else rest;
      forall h | h in s
        ensures h == top || Newer(top, h)
      {
        assert h == x || h in s - {x};
      }
    }
  }

  /** The newest of a bucket among all generations is kept, so it is there to beat every other survivor. */
  lemma {:induction false} TierOfSurvivors(all: set<Generation>, survivors: set<Generation>, p: Policy, now: nat,
                        seconds: nat, count: nat, g: Generation)
    requires Retained(all, p, now) <= survivors <= all && DistinctNames(all) && g in survivors
    requires (seconds, count) in {(HOUR, p.hourly), (DAY, p.daily), (WEEK, p.weekly)}
    ensures InTier(survivors, seconds, count, now, g) <==> InTier(all, seconds, count, now, g)
  {
    if InTier(survivors, seconds, count, now, g) {
      var bucket := set h | h in all && h.created / seconds == g.created / seconds;
      assert g in bucket;
      var top := NewestExists(bucket);
      assert InTier(all, seconds, count, now, top);
      assert top in Retained(all, p, now);
    }
  }

  lemma {:induction false} NewestTwoOfSurvivors(all: set<Generation>, survivors: set<Generation>, p: Policy, now: nat,
                                                g: Generation)
    requires Retained(all, p, now) <= survivors <= all && DistinctNames(all) && g in survivors
    ensures AmongNewestTwo(survivors, g) <==> AmongNewestTwo(all, g)
  {
    if a, b :| a in all && b in all && Newer(a, g) && Newer(b, g) && a != b {
      var top := NewestExists(all);
      var c := if a == top then b else a;
      assert c in all - {top};
      var second := NewestExists(all - {top});
      forall h | h in all && Newer(h, second)
        ensures h == top
      {
        assert h == top || h in all - {top};
      }
      assert AmongNewestTwo(all, top) && AmongNewestTwo(all, second);
      assert top in Retained(all, p, now) && second in Retained(all, p, now);
      assert Newer(top, g) && Newer(second, g);
    }
  }

  /** Rotating twice at the same time removes nothing more. */
  lemma {:induction false} RetainedIsIdempotent(all: set<Generation>, p: Policy, now: nat)
    requires DistinctNames(all)
    ensures Retained(Retained(all, p, now), p, now) == Retained(all, p, now)
  {
    RetainedFromSurvivors(all, Retained(all, p, now), p, now);
  }

  // ----- whole histories -----

  datatype Event = Publish(generation: Generation) | Prune(now: nat)

  /** The generations on disk after a history of publications and prunings. */
  ghost function Survivors(p: Policy, history: seq<Event>): set<Generation> {
    if history == [] then {}
    else
      var before := Survivors(p, history[..|history| - 1]);
      match history[|history| - 1]
      case Publish(g) => before + {g}
      case Prune(now) => Retained(before, p, now)
  }

  /** The generations that would be there had nothing ever been pruned. */
  ghost function Ever(history: seq<Event>): set<Generation> {
    set i | 0 <= i < |history| && history[i].Publish? :: history[i].generation
  }

  /**
   Prunings come at non-decreasing times, and each finds every older generation plausible,
   as listing the root demands.
   */
  ghost predicate Timeline(history: seq<Event>) {
    && DistinctNames(Ever(history))
    && forall i, j | 0 <= i < j < |history| && history[j].Prune? ::
         match history[i]
         case Publish(g) => Plausible(g, history[j].now)
         case Prune(t) => t <= history[j].now
  }

  lemma {:induction false} TimelinePrefix(history: seq<Event>)
    requires history != [] && Timeline(history)
    ensures Timeline(history[..|history| - 1])
    ensures Ever(history) == Ever(history[..|history| - 1]) +
              (match history[|history| - 1] case Publish(g) => {g} case Prune(_) => {})
  {
    var front := history[..|history| - 1];
    assert forall i | 0 <= i < |front| :: history[i] == front[i];
    assert Ever(front) <= Ever(history);
  }

  /** Nothing that any later evaluation would keep has been pruned. */
  lemma {:induction false} NothingNeededIsLost(p: Policy, history: seq<Event>, later: nat)
    requires Timeline(history + [Prune(later)])
    ensures Retained(Ever(history), p, later) <= Survivors(p, history) <= Ever(history)
    decreases |history|
  {
    if history != [] {
      var n := |history| - 1;
      var front := history[..n];
      var whole := history + [Prune(later)];
      assert whole[..n + 1] == history;
      TimelinePrefix(whole);
      TimelinePrefix(history);
      assert Timeline(front + [Prune(later)]) by {
        PruneInstead(history, later);
      }
      NothingNeededIsLost(p, front, later);
      match history[n]
      case Publish(g) =>
        forall x | x in Retained(Ever(history), p, later) && x in Ever(front)
          ensures x in Retained(Ever(front), p, later)
        {
          PublishOnlyShrinks(Ever(front), Ever(history), p, later, x);
        }
      case Prune(now) =>
        assert front + [Prune(now)] == history;
        NothingNeededIsLost(p, front, now);
        RetainedFromSurvivors(Ever(front), Survivors(p, front), p, now);
        assert whole[n] == Prune(now) && whole[n + 1] == Prune(later);
        forall x | x in Ever(front)
          ensures Plausible(x, now)
        {
          var i :| 0 <= i < n && front[i] == Publish(x);
          assert history[i] == front[i];
        }
        forall x | x in Retained(Ever(history), p, later)
          ensures x in Retained(Ever(front), p, now)
        {
          KeptLaterWasKept(Ever(front), Ever(history), p, now, later, x);
        }
    }
  }

  lemma {:induction false} PruneInstead(history: seq<Event>, later: nat)
    requires history != [] && Timeline(history + [Prune(later)])
    ensures Timeline(history[..|history| - 1] + [Prune(later)])
  {
    var n := |history| - 1;
    var whole, short := history + [Prune(later)], history[..n] + [Prune(later)];
    assert forall i | 0 <= i < n :: short[i] == whole[i];
    assert short[n] == whole[n + 1];
    assert Ever(short) <= Ever(whole) by {
      forall g | g in Ever(short)
        ensures g in Ever(whole)
      {
        var i :| 0 <= i < |short| && short[i] == Publish(g);
        assert whole[i] == Publish(g);
      }
    }
  }

  lemma {:induction false} PublishOnlyShrinks(all: set<Generation>, more: set<Generation>, p: Policy, now: nat,
                                              g: Generation)
    requires all <= more && g in all && Retains(more, p, now, g)
    ensures Retains(all, p, now, g)
  {
  }

  /**
   Incremental pruning refines "keep everything, evaluate once": whatever was
   published and pruned before, the next pruning leaves exactly what the policy
   keeps of every generation ever made.
   */
  lemma {:induction false} IncrementalPruningIsThePolicy(p: Policy, history: seq<Event>, now: nat)
    requires Timeline(history + [Prune(now)])
    ensures Survivors(p, history + [Prune(now)]) == Retained(Ever(history), p, now)
  {
    NothingNeededIsLost(p, history, now);
    TimelinePrefix(history + [Prune(now)]);
    assert (history + [Prune(now)])[..|history|] == history;
    RetainedFromSurvivors(Ever(history), Survivors(p, history), p, now);
  }

  // ----- how many survive -----

  /** One generation per bucket of the window, so at most `count` of them. */
  lemma {:induction false} TierIsSmall(all: set<Generation>, tier: set<Generation>, seconds: nat, count: nat, now: nat)
    requires seconds > 0 && tier <= all
    requires forall g | g in tier :: InTier(all, seconds, count, now, g)
    ensures |tier| <= count
    decreases count
  {
    if tier != {} {
      var oldest := count - 1;
      var last := set g | g in tier && now / seconds - g.created / seconds == oldest;
      var rest := tier - last;
      forall g, h | g in last && h in last
        ensures g == h
      {
        assert g.created / seconds == h.created / seconds;
      }
      AtMostOne(last);
      TierIsSmall(all, rest, seconds, oldest, now);
      assert tier == last + rest;
    }
  }

  lemma {:induction false} AtMostOne(s: set<Generation>)
    requires forall g, h | g in s && h in s :: g == h
    ensures |s| <= 1
  {
    if s != {} {
      var g :| g in s;
      assert s == {g};
    }
  }

  lemma {:induction false} NewestTwoAreTwo(all: set<Generation>, top: set<Generation>)
    requires DistinctNames(all) && top <= all && forall g | g in top :: AmongNewestTwo(all, g)
    ensures |top| <= 2
  {
    if top != {} {
      var first := NewestExists(top);
      var rest := top - {first};
      if rest != {} {
        var second := NewestExists(rest);
        forall g | g in rest
          ensures g == second
        {
          assert Newer(first, g);
        }
        assert top == {first, second};
      } else {
        assert top == {first};
      }
    }
  }

  ghost function NewestTwo(all: set<Generation>): set<Generation> {
    set g | g in all && AmongNewestTwo(all, g)
  }

  ghost function Tier(all: set<Generation>, seconds: nat, count: nat, now: nat): set<Generation>
    requires seconds > 0
  {
    set g | g in all && InTier(all, seconds, count, now, g)
  }

  lemma {:induction false} FourSets(a: set<Generation>, b: set<Generation>, c: set<Generation>, d: set<Generation>)
    ensures |a + b + c + d| <= |a| + |b| + |c| + |d|
  {
  }

  lemma {:induction false} RetainedByTier(all: set<Generation>, p: Policy, now: nat)
    ensures Retained(all, p, now) ==
            NewestTwo(all) + Tier(all, HOUR, p.hourly, now) + Tier(all, DAY, p.daily, now) +
                Tier(all, WEEK, p.weekly, now)
  {
  }

  /** A root never holds more than two generations and one per bucket of each tier after rotation. */
  lemma {:induction false} RetainedIsBounded(all: set<Generation>, p: Policy, now: nat)
    requires DistinctNames(all)
    ensures |Retained(all, p, now)| <= 2 + p.hourly + p.daily + p.weekly
  {
    RetainedByTier(all, p, now);
    NewestTwoAreTwo(all, NewestTwo(all));
    TierIsSmall(all, Tier(all, HOUR, p.hourly, now), HOUR, p.hourly, now);
    TierIsSmall(all, Tier(all, DAY, p.daily, now), DAY, p.daily, now);
    TierIsSmall(all, Tier(all, WEEK, p.weekly, now), WEEK, p.weekly, now);
    FourSets(NewestTwo(all), Tier(all, HOUR, p.hourly, now), Tier(all, DAY, p.daily, now),
             Tier(all, WEEK, p.weekly, now));
  }

  // ----- capacity -----

  /** `sum(total_size(path) for ...)` over a set of generations. */
  ghost function TotalBytes(s: set<Generation>): nat {
    if s == {} then 0
    else
      var g :| g in s;
      g.bytes + TotalBytes(s - {g})
  }

  lemma {:induction false} TotalWithout(s: set<Generation>, g: Generation)
    requires g in s
    ensures TotalBytes(s) == g.bytes + TotalBytes(s - {g})
  {
    var x :| x in s && TotalBytes(s) == x.bytes + TotalBytes(s - {x});
    if x != g {
      TotalWithout(s - {x}, g);
      TotalWithout(s - {g}, x);
      assert s - {x} - {g} == s - {g} - {x};
    }
  }

  lemma {:induction false} TotalMonotone(part: set<Generation>, whole: set<Generation>)
    requires part <= whole
    ensures TotalBytes(part) <= TotalBytes(whole)
  {
    if g :| g in part {
      TotalWithout(part, g);
      TotalWithout(whole, g);
      TotalMonotone(part - {g}, whole - {g});
    }
  }

  ghost function KeptOf(items: seq<Generation>, keep: set<nat>): set<Generation> {
    set g | g in items && g.name in keep
  }

  lemma {:induction false} KeptNext(items: seq<Generation>, keep: set<nat>, i: nat)
    requires NewestFirst(items) && i < |items|
    ensures TotalBytes(KeptOf(items[..i + 1], keep)) ==
            TotalBytes(KeptOf(items[..i], keep)) + if items[i].name in keep then items[i].bytes else 0
  {
    var before, after := KeptOf(items[..i], keep), KeptOf(items[..i + 1], keep);
    assert items[..i + 1] == items[..i] + [items[i]];
    if items[i].name in keep {
      assert items[i] !in items[..i];
      assert after - {items[i]} == before;
      TotalWithout(after, items[i]);
    } else {
      assert after == before;
    }
  }

  /** The capacity sum of `backup` and `rotate`: the sizes of the items whose names are kept. */
  method KeptBytes(items: seq<Generation>, keep: set<nat>) returns (total: nat)
    requires NewestFirst(items)
    ensures total == TotalBytes(KeptOf(items, keep))
  {
    total := 0;
    for i := 0 to |items|
      invariant total == TotalBytes(KeptOf(items[..i], keep))
    {
      KeptNext(items, keep, i);
      if items[i].name in keep {
        total := total + items[i].bytes;
      }
    }
    assert items[..|items|] == items;
  }

  /**
   Admission is sound: what a rotation keeps at a later time, with the new generation
   there, is within what the admission check already counted.
   */
  lemma {:induction false} AdmittedCaptureFits(all: set<Generation>, added: Generation, p: Policy, now: nat, later: nat)
    requires now <= later && Listable(all, now)
    requires TotalBytes(Retained(all, p, now)) + added.bytes <= p.maxBytes
    ensures Retained(all + {added}, p, later) <= Retained(all, p, now) + {added}
    ensures TotalBytes(Retained(all + {added}, p, later)) <= p.maxBytes
  {
    forall g | g in Retained(all + {added}, p, later) && g != added
      ensures g in Retained(all, p, now)
    {
      KeptLaterWasKept(all, all + {added}, p, now, later, g);
    }
    var admitted := Retained(all, p, now) + {added};
    TotalMonotone(Retained(all + {added}, p, later), admitted);
    TotalWithout(admitted, added);
    TotalMonotone(admitted - {added}, Retained(all, p, now));
  }

  // ----- the backup root -----

  datatype RotationRefusal = InvalidGenerationManifest | NewGenerationNotNewest | RetentionExceedsCapacity

  /** The generations published under one root, `rotate`d in place. */
  class BackupRoot {
    var generations: set<Generation>

    constructor ()
      ensures generations == {}
    {
      generations := {};
    }

    /** `generations(root)`: refuses a generation whose time `verify` rejects, else lists all, newest first. */
    method Listing(now: nat) returns (listed: Option<seq<Generation>>)
      requires DistinctNames(generations)
      ensures listed.Some? <==> Listable(generations, now)
      ensures listed.Some? ==> NewestFirst(listed.value) && All(listed.value) == generations
    {
      var items: seq<Generation> := [];
      var rest := generations;
      while rest != {}
        invariant rest <= generations && All(items) == generations - rest && Listable(All(items), now)
        invariant forall i, j | 0 <= i < j < |items| :: Newer(items[i], items[j])
        invariant forall i, g | 0 <= i < |items| && g in rest :: Newer(items[i], g)
        decreases rest
      {
        ghost var top := NewestExists(rest);
        var g :| g in rest && forall h | h in rest :: h == g || Newer(g, h);
        if !Plausible(g, now) {
          return None;
        }
        assert All(items + [g]) == All(items) + {g};
        items := items + [g];
        rest := rest - {g};
      }
      assert All(items) == generations;
      return Some(items);
    }

    /** `rotate` with `prune_unretained`: refuses without touching anything, or leaves what the policy keeps. */
    method Rotate(newest: Generation, p: Policy, now: nat) returns (refusal: Option<RotationRefusal>)
      requires DistinctNames(generations)
      modifies this
      ensures refusal.None? <==>
              && Listable(old(generations), now)
              && newest in old(generations) && (forall g | g in old(generations) :: g == newest || Newer(newest, g))
              && TotalBytes(Retained(old(generations), p, now)) <= p.maxBytes
      ensures refusal == Some(InvalidGenerationManifest) <==> !Listable(old(generations), now)
      ensures generations == if refusal.None? then Retained(old(generations), p, now) else old(generations)
    {
      var listed := Listing(now);
      if listed.None? {
        return Some(InvalidGenerationManifest);
      }
      var items := listed.value;
      if items == [] || items[0] != newest {
        assert items != [] ==> items[0] in generations;
        return Some(NewGenerationNotNewest);
      }
      assert forall g | g in generations :: exists i :: 0 <= i < |items| && items[i] == g;
      var keep := KeptNames(items, p, now);
      var total := KeptBytes(items, keep);
      assert KeptOf(items, keep) == Retained(generations, p, now);
      if total > p.maxBytes {
        return Some(RetentionExceedsCapacity);
      }
      PruneUnretained(items, keep);
      assert KeptOf(items, keep) == Retained(old(generations), p, now);
      return None;
    }

    /**
     The admission check of `backup` for a capture of `bytes`. Whatever time a later rotation
     comes at, and however far `verify` lets the clock lag, its capacity check then passes.
     */
    method Admits(p: Policy, now: nat, bytes: nat) returns (ok: bool)
      requires DistinctNames(generations)
      ensures ok <==> Listable(generations, now) && TotalBytes(Retained(generations, p, now)) + bytes <= p.maxBytes
      ensures ok ==> forall added: Generation, later: nat | added.bytes == bytes && now <= later ::
                TotalBytes(Retained(generations + {added}, p, later)) <= p.maxBytes
    {
      var listed := Listing(now);
      if listed.None? {
        return false;
      }
      var keep := KeptNames(listed.value, p, now);
      var base := KeptBytes(listed.value, keep);
      assert KeptOf(listed.value, keep) == Retained(generations, p, now);
      ok := base + bytes <= p.maxBytes;
      if ok {
        forall added: Generation, later: nat | added.bytes == bytes && now <= later
          ensures TotalBytes(Retained(generations + {added}, p, later)) <= p.maxBytes
        {
          AdmittedCaptureFits(generations, added, p, now, later);
        }
      }
    }

    method PruneUnretained(items: seq<Generation>, keep: set<nat>)
      requires NewestFirst(items) && All(items) == generations
      modifies this
      ensures generations == KeptOf(items, keep)
    {
      for i := 0 to |items|
        invariant generations == All(items) - (set j | 0 <= j < i && items[j].name !in keep :: items[j])
      {
        if items[i].name !in keep {
          generations := generations - {items[i]};
        }
      }
    }
  }
}
