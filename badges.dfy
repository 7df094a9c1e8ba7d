/**
 * The badge catalogue of the language hub and the effect that unlocks badges
 * whenever the points change. The effect is stated over any catalogue; the
 * hub uses `AllBadges`, which is `WellFormed`.
 */
module Badges {
  import opened Types

  /** The fixed catalogue, in ascending threshold order. */
  const AllBadges: seq<Badge> := [
    Badge("First Steps", 5),
    Badge("Talkative", 50),
    Badge("Quiz Whiz", 100)
  ]

  /** Whether some badge of the list has the name, as `some` finds by scanning the indices. */
  predicate HasName(s: seq<Badge>, name: string): (r: bool)
    ensures r <==> exists i | 0 <= i < |s| :: s[i].name == name
  {
    exists b | b in s :: b.name == name
  }

  predicate SortedByThreshold(s: seq<Badge>) {
    forall i, j | 0 <= i < j < |s| :: s[i].threshold <= s[j].threshold
  }

  predicate DistinctNames(s: seq<Badge>) {
    forall i, j | 0 <= i < j < |s| :: s[i].name != s[j].name
  }

  predicate StrictlyIncreasing(s: seq<Badge>) {
    forall i, j | 0 <= i < j < |s| :: s[i].threshold < s[j].threshold
  }

  /** Thresholds strictly increase along the catalogue and names are unique. */
  predicate WellFormed(catalogue: seq<Badge>) {
    StrictlyIncreasing(catalogue) && DistinctNames(catalogue)
  }

  /**
   * Reference definition of the unlocked list: the catalogue badges whose
   * threshold the points have reached, in catalogue order.
   */
  function Unlocked(catalogue: seq<Badge>, points: int): (r: seq<Badge>)
    ensures forall b :: b in r <==> b in catalogue && b.threshold <= points
    ensures |r| <= |catalogue|
  {
    if catalogue == [] then []
    else if catalogue[0].threshold <= points then [catalogue[0]] + Unlocked(catalogue[1..], points)
    else Unlocked(catalogue[1..], points)
  }

  /** The catalogue badges the points have reached whose name is not yet among `earned`, in catalogue order. */
  function NewlyEarned(catalogue: seq<Badge>, points: int, earned: seq<Badge>): (r: seq<Badge>)
    ensures forall b :: b in r <==> b in catalogue && b.threshold <= points && !HasName(earned, b.name)
  {
    if catalogue == [] then []
    else
      var rest := NewlyEarned(catalogue[1..], points, earned);
      if catalogue[0].threshold <= points && !HasName(earned, catalogue[0].name) then [catalogue[0]] + rest else rest
  }

  /** Places `b` before the first element whose threshold is not below its own. */
  function InsertByThreshold(b: Badge, s: seq<Badge>): (r: seq<Badge>)
    ensures multiset(r) == multiset(s) + multiset{b}
    ensures forall x :: x in r <==> x == b || x in s
  {
    if s == [] || b.threshold <= s[0].threshold then [b] + s
    else
      assert s == [s[0]] + s[1..];
      [s[0]] + InsertByThreshold(b, s[1..])
  }

  /** Inserting into a sorted list keeps it sorted. */
  lemma {:induction false} InsertKeepsSorted(b: Badge, s: seq<Badge>)
    requires SortedByThreshold(s)
    ensures SortedByThreshold(InsertByThreshold(b, s))
  {
    if s != [] && b.threshold > s[0].threshold {
      var t := InsertByThreshold(b, s[1..]);
      InsertKeepsSorted(b, s[1..]);
      forall x | x in t ensures s[0].threshold <= x.threshold {
        if x != b {
          var k :| 0 <= k < |s[1..]| && s[1..][k] == x;
          assert s[k + 1] == x;
        }
      }
      var r := [s[0]] + t;
      forall i, j | 0 <= i < j < |r| ensures r[i].threshold <= r[j].threshold {
        assert r[j] == t[j - 1] && r[j] in t;
        if i > 0 { assert r[i] == t[i - 1]; }
      }
    }
  }

  /**
   * The stable sort by ascending threshold that the effect applies (the
   * comparator subtracts thresholds; equal thresholds keep their order).
   */
  function SortByThreshold(s: seq<Badge>): (r: seq<Badge>)
    ensures SortedByThreshold(r)
    ensures multiset(r) == multiset(s)
    ensures forall x :: x in r <==> x in s
  {
    if s == [] then []
    else
      assert s == [s[0]] + s[1..];
      var t := SortByThreshold(s[1..]);
      InsertKeepsSorted(s[0], t);
      InsertByThreshold(s[0], t)
  }

  /**
   * The badge effect: filter the newly earned badges; when there are any,
   * the list becomes the old list followed by them, sorted by threshold;
   * otherwise no state is set.
   */
  function BadgeEffect(catalogue: seq<Badge>, points: int, earned: seq<Badge>): (r: seq<Badge>)
    ensures multiset(r) == multiset(earned + NewlyEarned(catalogue, points, earned))
    ensures |NewlyEarned(catalogue, points, earned)| > 0 ==> SortedByThreshold(r)
    ensures |NewlyEarned(catalogue, points, earned)| == 0 ==> r == earned
  {
    var newly := NewlyEarned(catalogue, points, earned);
    if |newly| > 0 then SortByThreshold(earned + newly) else earned
  }

  /** Sorting a list that is already sorted changes nothing. */
  lemma {:induction false} SortSortedIsIdentity(s: seq<Badge>)
    requires SortedByThreshold(s)
    ensures SortByThreshold(s) == s
  {
    if s != [] {
      SortSortedIsIdentity(s[1..]);
      assert s == [s[0]] + s[1..];
    }
  }

  /**
   * After the effect every catalogue badge whose threshold the points reach is
   * earned (by name), and nothing earned was dropped.
   */
  lemma EffectIsComplete(catalogue: seq<Badge>, points: int, earned: seq<Badge>)
    ensures forall b | b in catalogue && b.threshold <= points :: HasName(BadgeEffect(catalogue, points, earned), b.name)
    ensures multiset(earned) <= multiset(BadgeEffect(catalogue, points, earned))
  {
    var r := BadgeEffect(catalogue, points, earned);
    var newly := NewlyEarned(catalogue, points, earned);
    forall b | b in catalogue && b.threshold <= points
      ensures HasName(r, b.name)
    {
      if !HasName(earned, b.name) {
        assert b in newly;
        assert b in earned + newly;
        assert b in r;
      } else {
        var e :| e in earned && e.name == b.name;
        assert e in r by {
          if |newly| > 0 { assert e in earned + newly; }
        }
      }
    }
  }

  /** The effect adds only catalogue badges the points have reached. */
  lemma EffectIsSound(catalogue: seq<Badge>, points: int, earned: seq<Badge>)
    ensures forall b | b in BadgeEffect(catalogue, points, earned) :: b in earned || (b in catalogue && b.threshold <= points)
  {
    var newly := NewlyEarned(catalogue, points, earned);
    if |newly| > 0 {
      forall b | b in BadgeEffect(catalogue, points, earned)
        ensures b in earned || (b in catalogue && b.threshold <= points)
      {
        assert b in earned + newly;
      }
    }
  }

  /** The effect keeps the list sorted by threshold and keeps names unique. */
  lemma EffectKeepsOrderAndNames(catalogue: seq<Badge>, points: int, earned: seq<Badge>)
    ensures SortedByThreshold(earned) ==> SortedByThreshold(BadgeEffect(catalogue, points, earned))
    ensures DistinctNames(catalogue) && DistinctNames(earned) ==> DistinctNames(BadgeEffect(catalogue, points, earned))
  {
    var newly := NewlyEarned(catalogue, points, earned);
    if |newly| > 0 && DistinctNames(catalogue) && DistinctNames(earned) {
      NewlyEarnedNamesDistinct(catalogue, points, earned);
      var both := earned + newly;
      forall i, j | 0 <= i < j < |both| ensures both[i].name != both[j].name {
        if i < |earned| <= j {
          assert both[j] in newly;
          assert both[i] in earned;
        }
      }
      SortKeepsNamesDistinct(both);
    }
  }

  lemma {:induction false} NewlyEarnedNamesDistinct(catalogue: seq<Badge>, points: int, earned: seq<Badge>)
    requires DistinctNames(catalogue)
    ensures DistinctNames(NewlyEarned(catalogue, points, earned))
  {
    if catalogue != [] {
      var rest := catalogue[1..];
      NewlyEarnedNamesDistinct(rest, points, earned);
      var t := NewlyEarned(rest, points, earned);
      forall j | 0 <= j < |t| ensures catalogue[0].name != t[j].name {
        assert t[j] in rest;
        var k :| 0 <= k < |rest| && rest[k] == t[j];
        assert catalogue[k + 1] == t[j];
      }
    }
  }

  lemma {:induction false} InsertKeepsNamesDistinct(b: Badge, s: seq<Badge>)
    requires DistinctNames(s) && !HasName(s, b.name)
    ensures DistinctNames(InsertByThreshold(b, s))
  {
    if s == [] || b.threshold <= s[0].threshold {
      var r := [b] + s;
      forall j | 1 <= j < |r| ensures r[0].name != r[j].name {
        assert r[j] in s;
      }
    } else {
      assert !HasName(s[1..], b.name) by {
        forall x | x in s[1..] ensures x.name != b.name { assert x in s; }
      }
      InsertKeepsNamesDistinct(b, s[1..]);
      var t := InsertByThreshold(b, s[1..]);
      forall j | 0 <= j < |t| ensures s[0].name != t[j].name {
        assert t[j] in t;
        if t[j] != b {
          var k :| 0 <= k < |s[1..]| && s[1..][k] == t[j];
          assert s[k + 1] == t[j];
        } else {
          assert s[0] in s;
        }
      }
    }
  }

  lemma {:induction false} SortKeepsNamesDistinct(s: seq<Badge>)
    requires DistinctNames(s)
    ensures DistinctNames(SortByThreshold(s))
  {
    if s != [] {
      SortKeepsNamesDistinct(s[1..]);
      var t := SortByThreshold(s[1..]);
      forall x | x in t ensures x.name != s[0].name {
        assert x in s[1..];
        var k :| 0 <= k < |s[1..]| && s[1..][k] == x;
        assert s[k + 1] == x;
      }
      InsertKeepsNamesDistinct(s[0], t);
    }
  }

  /**
   * Running the effect a second time with the same points, on the list it
   * produced, changes nothing: no catalogue badge is left to earn.
   */
  lemma EffectIsIdempotent(catalogue: seq<Badge>, points: int, earned: seq<Badge>)
    ensures BadgeEffect(catalogue, points, BadgeEffect(catalogue, points, earned)) == BadgeEffect(catalogue, points, earned)
  {
    EffectIsComplete(catalogue, points, earned);
    NothingLeftToEarn(catalogue, points, BadgeEffect(catalogue, points, earned));
  }

  lemma {:induction false} NothingLeftToEarn(catalogue: seq<Badge>, points: int, earned: seq<Badge>)
    requires forall b | b in catalogue && b.threshold <= points :: HasName(earned, b.name)
    ensures NewlyEarned(catalogue, points, earned) == []
  {
    if catalogue != [] {
      assert catalogue[0] in catalogue;
      assert forall b | b in catalogue[1..] :: b in catalogue;
      NothingLeftToEarn(catalogue[1..], points, earned);
    }
  }

  /** A strictly increasing list is sorted, and so is every filter of it by threshold. */
  lemma {:induction false} UnlockedIsOrdered(catalogue: seq<Badge>, points: int)
    requires WellFormed(catalogue)
    ensures StrictlyIncreasing(Unlocked(catalogue, points))
    ensures DistinctNames(Unlocked(catalogue, points))
  {
    if catalogue != [] {
      var rest := catalogue[1..];
      assert WellFormed(rest);
      UnlockedIsOrdered(rest, points);
      if catalogue[0].threshold <= points {
        HeadPrecedesTail(catalogue, points);
        ConsKeepsOrder(catalogue[0], Unlocked(rest, points));
      }
    }
  }

  /** In a well-formed catalogue the head is below, and named unlike, every badge its tail unlocks. */
  lemma HeadPrecedesTail(catalogue: seq<Badge>, points: int)
    requires WellFormed(catalogue) && catalogue != []
    ensures forall b | b in Unlocked(catalogue[1..], points) ::
      catalogue[0].threshold < b.threshold && catalogue[0].name != b.name
  {
    var rest := catalogue[1..];
    forall b | b in Unlocked(rest, points)
      ensures catalogue[0].threshold < b.threshold && catalogue[0].name != b.name
    {
      var k :| 0 <= k < |rest| && rest[k] == b;
      assert catalogue[k + 1] == b;
    }
  }

  /** Putting a badge below, and named unlike, everything in front of an ordered list keeps it ordered. */
  lemma ConsKeepsOrder(c: Badge, t: seq<Badge>)
    requires StrictlyIncreasing(t) && DistinctNames(t)
    requires forall b | b in t :: c.threshold < b.threshold && c.name != b.name
    ensures StrictlyIncreasing([c] + t) && DistinctNames([c] + t)
  {
    var r := [c] + t;
    forall i, j | 0 <= i < j < |r| ensures r[i].threshold < r[j].threshold && r[i].name != r[j].name {
      assert r[j] == t[j - 1] && r[j] in t;
      if i > 0 { assert r[i] == t[i - 1]; }
    }
  }

  lemma UnlockedNoneReached(s: seq<Badge>, points: int)
    requires forall b | b in s :: b.threshold > points
    ensures Unlocked(s, points) == []
  {
  }

  /** When even the first threshold of an increasing catalogue is above the points, nothing in it or its tail is reached. */
  lemma HeadAboveNoneReached(catalogue: seq<Badge>, points: int)
    requires StrictlyIncreasing(catalogue) && catalogue != [] && catalogue[0].threshold > points
    ensures Unlocked(catalogue, points) == [] && Unlocked(catalogue[1..], points) == []
  {
    forall b | b in catalogue ensures b.threshold > points {
      var k :| 0 <= k < |catalogue| && catalogue[k] == b;
      assert k == 0 || catalogue[0].threshold < catalogue[k].threshold;
    }
    UnlockedNoneReached(catalogue, points);
    UnlockedNoneReached(catalogue[1..], points);
  }

  /**
   * Over a strictly increasing catalogue, with `earned` holding by name
   * exactly the badges reached at `q`: the badges reached at `q`, followed by
   * those the effect finds new at `p`, are the badges reached at `p`.
   */
  lemma {:induction false} UnlockedSplits(catalogue: seq<Badge>, earned: seq<Badge>, q: int, p: int)
    requires StrictlyIncreasing(catalogue) && q <= p
    requires forall b | b in catalogue :: HasName(earned, b.name) <==> b.threshold <= q
    ensures Unlocked(catalogue, q) + NewlyEarned(catalogue, p, earned) == Unlocked(catalogue, p)
  {
    if catalogue != [] {
      var c, rest := catalogue[0], catalogue[1..];
      assert c in catalogue;
      assert forall b | b in rest :: HasName(earned, b.name) <==> b.threshold <= q by {
        forall b | b in rest ensures b in catalogue {
          var k :| 0 <= k < |rest| && rest[k] == b;
          assert catalogue[k + 1] == b;
        }
      }
      UnlockedSplits(rest, earned, q, p);
      if c.threshold <= q {
        SplitStepReached(catalogue, earned, q, p);
      } else {
        HeadAboveNoneReached(catalogue, q);
        SplitStepUnreached(catalogue, earned, q, p);
      }
    }
  }

  /** The step of `UnlockedSplits` when the head was already reached at `q`. */
  lemma SplitStepReached(catalogue: seq<Badge>, earned: seq<Badge>, q: int, p: int)
    requires catalogue != [] && q <= p && catalogue[0].threshold <= q && HasName(earned, catalogue[0].name)
    requires Unlocked(catalogue[1..], q) + NewlyEarned(catalogue[1..], p, earned) == Unlocked(catalogue[1..], p)
    ensures Unlocked(catalogue, q) + NewlyEarned(catalogue, p, earned) == Unlocked(catalogue, p)
  {
    var c, rest := catalogue[0], catalogue[1..];
    calc {
      Unlocked(catalogue, q) + NewlyEarned(catalogue, p, earned);
      ([c] + Unlocked(rest, q)) + NewlyEarned(rest, p, earned);
      [c] + (Unlocked(rest, q) + NewlyEarned(rest, p, earned));
    }
  }

  /** The step of `UnlockedSplits` when nothing was reached at `q`. */
  lemma SplitStepUnreached(catalogue: seq<Badge>, earned: seq<Badge>, q: int, p: int)
    requires catalogue != [] && !HasName(earned, catalogue[0].name)
    requires Unlocked(catalogue, q) == [] && Unlocked(catalogue[1..], q) == []
    requires Unlocked(catalogue[1..], q) + NewlyEarned(catalogue[1..], p, earned) == Unlocked(catalogue[1..], p)
    ensures Unlocked(catalogue, q) + NewlyEarned(catalogue, p, earned) == Unlocked(catalogue, p)
  {
    var rest := catalogue[1..];
    assert [] + NewlyEarned(rest, p, earned) == NewlyEarned(rest, p, earned);
    assert [] + NewlyEarned(catalogue, p, earned) == NewlyEarned(catalogue, p, earned);
  }

  /**
   * With the hub's invariant (the list is exactly what was reached at the old
   * points `q`), running the effect at the new points `p >= q` yields exactly
   * what is reached at `p`, and the old list is a prefix of the new one: the
   * effect only appends.
   */
  lemma EffectCatchesUp(catalogue: seq<Badge>, q: int, p: int)
    requires WellFormed(catalogue) && q <= p
    ensures BadgeEffect(catalogue, p, Unlocked(catalogue, q)) == Unlocked(catalogue, p)
    ensures Unlocked(catalogue, q) <= Unlocked(catalogue, p)
  {
    var earned := Unlocked(catalogue, q);
    forall b | b in catalogue ensures HasName(earned, b.name) <==> b.threshold <= q {
      if HasName(earned, b.name) {
        var e :| e in earned && e.name == b.name;
        var i :| 0 <= i < |catalogue| && catalogue[i] == e;
        var j :| 0 <= j < |catalogue| && catalogue[j] == b;
        assert i == j;
      }
    }
    UnlockedSplits(catalogue, earned, q, p);
    var newly := NewlyEarned(catalogue, p, earned);
    assert earned + newly == Unlocked(catalogue, p);
    if |newly| > 0 {
      UnlockedIsOrdered(catalogue, p);
      SortSortedIsIdentity(Unlocked(catalogue, p));
    } else {
      assert earned + newly == earned;
    }
  }

  lemma AllBadgesWellFormed()
    ensures WellFormed(AllBadges)
  {
  }

  /** With the catalogue's thresholds 5, 50 and 100: which badges a points total unlocks. */
  lemma AllBadgesUnlocked(points: int)
    ensures Unlocked(AllBadges, points) ==
      if points < 5 then []
      else if points < 50 then [AllBadges[0]]
      else if points < 100 then [AllBadges[0], AllBadges[1]]
      else AllBadges
  {
    var c0, c1, c2 := AllBadges[0], AllBadges[1], AllBadges[2];
    assert AllBadges[1..] == [c1, c2];
    assert [c1, c2][1..] == [c2];
    assert [c2][1..] == [];
    var u2 := Unlocked([c2], points);
    assert u2 == if points < 100 then [] else [c2];
    var u1 := Unlocked([c1, c2], points);
    assert u1 == if points < 50 then u2 else [c1] + u2;
  }
}
