/** The two reveal-on-scroll observers: sections gain a lasting `visible` class,
    cards get a staggered reveal scheduled and are then no longer observed.
    The timers themselves are not run: a scheduled reveal is recorded with its
    delay. */
module Reveal {
  import opened Intersection

  /** Delay step in milliseconds between cards of one batch. */
  const Stagger: nat := 30

  /** A reveal the card callback has scheduled: its element and its delay. */
  datatype Scheduled = Scheduled(target: Element, delay: nat)

  /** The reveals a card batch schedules, in the order the callback schedules
      them: one per intersecting entry, delayed by its position in the whole
      batch times the stagger. */
  function Schedule(es: seq<Entry>): (r: seq<Scheduled>)
    ensures |r| <= |es|
    decreases |es|
  {
    if es == [] then []
    else
      var n := |es| - 1;
      Schedule(es[..n]) + (if es[n].isIntersecting then [Scheduled(es[n].target, n * Stagger)] else [])
  }

  /** The reveal an entry at position `k` gets, if it intersects. */
  function RevealOf(es: seq<Entry>, k: nat): seq<Scheduled>
    requires k < |es|
  {
    if es[k].isIntersecting then [Scheduled(es[k].target, k * Stagger)] else []
  }

  /** Extending a batch prefix by one entry extends its schedule and its
      intersecting targets by that entry's share. */
  lemma PrefixStep(es: seq<Entry>, n: nat)
    requires n < |es|
    ensures Schedule(es[..n + 1]) == Schedule(es[..n]) + RevealOf(es, n)
    ensures IntersectingTargets(es[..n + 1])
      == IntersectingTargets(es[..n]) + (if es[n].isIntersecting then {es[n].target} else {})
  {
    assert es[..n + 1][..n] == es[..n];
  }

  /** Every scheduled reveal belongs to an intersecting entry and carries that
      entry's position times the stagger. */
  lemma {:induction false} ScheduleSound(es: seq<Entry>)
    ensures forall s :: s in Schedule(es) ==>
      exists k :: 0 <= k < |es| && es[k].isIntersecting && s == Scheduled(es[k].target, k * Stagger)
    decreases |es|
  {
    if es != [] {
      var n := |es| - 1;
      var init := es[..n];
      ScheduleSound(init);
      assert Schedule(es) == Schedule(init) + RevealOf(es, n);
      forall s | s in Schedule(es)
        ensures exists k :: 0 <= k < |es| && es[k].isIntersecting && s == Scheduled(es[k].target, k * Stagger)
      {
        if s in Schedule(init) {
          var k :| 0 <= k < |init| && init[k].isIntersecting && s == Scheduled(init[k].target, k * Stagger);
          assert es[k] == init[k];
        } else {
          assert s in RevealOf(es, n);
        }
      }
    }
  }

  /** Every intersecting entry has its reveal scheduled. */
  lemma {:induction false} ScheduleComplete(es: seq<Entry>)
    ensures forall k :: 0 <= k < |es| && es[k].isIntersecting ==>
      Scheduled(es[k].target, k * Stagger) in Schedule(es)
    decreases |es|
  {
    if es != [] {
      var n := |es| - 1;
      var init := es[..n];
      ScheduleComplete(init);
      assert Schedule(es) == Schedule(init) + RevealOf(es, n);
      forall k | 0 <= k < |es| && es[k].isIntersecting
        ensures Scheduled(es[k].target, k * Stagger) in Schedule(es)
      {
        if k < n {
          assert init[k] == es[k];
          assert Scheduled(init[k].target, k * Stagger) in Schedule(init);
        } else {
          assert Scheduled(es[k].target, k * Stagger) in RevealOf(es, n);
        }
      }
    }
  }

  /** Every scheduled reveal belongs to an intersecting entry and carries that
      entry's position times the stagger; every intersecting entry has one. */
  lemma ScheduleMatchesEntries(es: seq<Entry>)
    ensures forall s :: s in Schedule(es) ==>
      exists k :: 0 <= k < |es| && es[k].isIntersecting && s == Scheduled(es[k].target, k * Stagger)
    ensures forall k :: 0 <= k < |es| && es[k].isIntersecting ==>
      Scheduled(es[k].target, k * Stagger) in Schedule(es)
  {
    ScheduleSound(es);
    ScheduleComplete(es);
  }

  /** Only intersecting targets get a reveal. */
  lemma ScheduleTargetsIntersect(es: seq<Entry>)
    ensures forall s :: s in Schedule(es) ==> s.target in IntersectingTargets(es)
  {
    ScheduleSound(es);
  }

  /** Reveals of one batch are scheduled with strictly increasing delays, each
      a multiple of the stagger: the cascade. */
  lemma {:induction false} ScheduleStaggered(es: seq<Entry>)
    ensures forall j :: 0 <= j < |Schedule(es)| ==>
      Schedule(es)[j].delay % Stagger == 0 && Schedule(es)[j].delay < |es| * Stagger
    ensures forall i, j :: 0 <= i < j < |Schedule(es)| ==> Schedule(es)[i].delay < Schedule(es)[j].delay
    decreases |es|
  {
    if es != [] {
      var n := |es| - 1;
      ScheduleStaggered(es[..n]);
    }
  }

  /** The section observer's state: the sections that have the `visible` class. */
  class SectionReveal {
    var visible: set<Element>

    constructor ()
      ensures visible == {}
    {
      visible := {};
    }

    /** The section callback: every intersecting target gains `visible`; nothing
        ever loses it. */
    method OnEntries(entries: seq<Entry>)
      modifies this
      ensures visible == old(visible) + IntersectingTargets(entries)
    {
      var k := 0;
      while k < |entries|
        invariant 0 <= k <= |entries|
        invariant visible == old(visible) + IntersectingTargets(entries[..k])
      {
        PrefixStep(entries, k);
        if entries[k].isIntersecting {
          visible := visible + {entries[k].target};
        }
        k := k + 1;
      }
      assert entries[..k] == entries;
    }
  }

  /** The card observer's state: the elements still observed, and the reveals
      scheduled so far. */
  class CardReveal {
    var observed: set<Element>
    var pending: seq<Scheduled>

    /** Observing the matched cards, certificates, profile and contact items. */
    constructor (cards: set<Element>)
      ensures observed == cards && pending == []
    {
      observed := cards;
      pending := [];
    }

    /** The card callback: each intersecting entry gets a reveal delayed by its
        index in the batch times the stagger and its target is unobserved;
        other targets stay observed. */
    method OnEntries(entries: seq<Entry>)
      modifies this
      ensures pending == old(pending) + Schedule(entries)
      ensures observed == old(observed) - IntersectingTargets(entries)
    {
      var index := 0;
      while index < |entries|
        invariant 0 <= index <= |entries|
        invariant pending == old(pending) + Schedule(entries[..index])
        invariant observed == old(observed) - IntersectingTargets(entries[..index])
      {
        PrefixStep(entries, index);
        var entry := entries[index];
        if entry.isIntersecting {
          pending := pending + [Scheduled(entry.target, index * Stagger)];
          observed := observed - {entry.target};
        }
        index := index + 1;
      }
      assert entries[..index] == entries;
    }
  }
}
