/** The topbar shadow: the `scrolled` class follows the rule "vertical scroll
    offset above 50 pixels". The listener the script registers for it does not
    reach that rule (see TopbarListenerAsWritten); the rule itself is modelled
    by Topbar.HandleScroll. */
module Topbar {

  /** Offset in pixels past which the topbar counts as scrolled. */
  const Threshold: real := 50.0

  /** The threshold rule: strictly above 50. */
  predicate IsScrolled(offset: real) {
    offset > Threshold
  }

  /** The boundary: 50 is not scrolled, 51 is; and the rule is monotone. */
  lemma ThresholdBoundary(a: real, b: real)
    ensures !IsScrolled(50.0) && IsScrolled(51.0)
    ensures a <= b && IsScrolled(a) ==> IsScrolled(b)
  {
  }

  /** The class after handling each offset in turn, starting from `scrolled`. */
  function AfterScrolls(present: bool, scrolled: bool, offsets: seq<real>): (r: bool)
    ensures !present ==> r == scrolled
    ensures offsets == [] ==> r == scrolled
    ensures present && offsets != [] ==> r == IsScrolled(offsets[|offsets| - 1])
    decreases |offsets|
  {
    if offsets == [] then scrolled
    else AfterScrolls(present, if present then IsScrolled(offsets[0]) else scrolled, offsets[1..])
  }

  /** How many times the class is added where it was absent, handling each
      offset in turn from `scrolled`. */
  function Gains(scrolled: bool, offsets: seq<real>): nat
    decreases |offsets|
  {
    if offsets == [] then 0
    else
      var now := IsScrolled(offsets[0]);
      (if !scrolled && now then 1 else 0) + Gains(now, offsets[1..])
  }

  ghost predicate NonDecreasing(offsets: seq<real>) {
    forall k :: 0 <= k < |offsets| - 1 ==> offsets[k] <= offsets[k + 1]
  }

  /** While the page only scrolls down, the class is gained at most once, and
      it is gained exactly once when the offsets cross the threshold from an
      unscrolled start. */
  lemma {:induction false} GainedAtMostOnce(scrolled: bool, offsets: seq<real>)
    requires NonDecreasing(offsets)
    ensures Gains(scrolled, offsets) <= 1
    ensures scrolled && (offsets == [] || IsScrolled(offsets[0])) ==> Gains(scrolled, offsets) == 0
    ensures offsets != [] && !IsScrolled(offsets[|offsets| - 1]) ==> !IsScrolled(offsets[0])
    ensures !scrolled && offsets != [] && IsScrolled(offsets[|offsets| - 1]) ==> Gains(scrolled, offsets) == 1
    ensures offsets != [] && !IsScrolled(offsets[|offsets| - 1]) ==> Gains(scrolled, offsets) == 0
    decreases |offsets|
  {
    if offsets != [] {
      var now := IsScrolled(offsets[0]);
      var rest := offsets[1..];
      assert NonDecreasing(rest) by {
        forall k | 0 <= k < |rest| - 1 ensures rest[k] <= rest[k + 1] {
          assert rest[k] == offsets[k + 1] && rest[k + 1] == offsets[k + 2];
        }
      }
      if rest != [] {
        assert offsets[0] <= rest[0];
        assert offsets[|offsets| - 1] == rest[|rest| - 1];
      }
      GainedAtMostOnce(now, rest);
    }
  }

  /** Scrolling from 49 to 51 adds the class exactly once. */
  lemma CrossingExample()
    ensures Gains(false, [49.0, 51.0]) == 1
  {
    assert [49.0, 51.0][1..] == [51.0];
    assert [51.0][1..] == [];
  }

  /** The topbar element, if the page has one, and whether it has `scrolled`. */
  class Topbar {
    const present: bool
    var scrolled: bool

    constructor (present: bool, scrolled: bool)
      ensures this.present == present && this.scrolled == scrolled
    {
      this.present, this.scrolled := present, scrolled;
    }

    /** `handleTopbarScroll`: add `scrolled` above the threshold, remove it
        otherwise; nothing when there is no topbar. */
    method HandleScroll(offset: real)
      modifies this
      ensures present ==> scrolled == IsScrolled(offset)
      ensures !present ==> scrolled == old(scrolled)
    {
      if present {
        if offset > Threshold {
          scrolled := true;
        } else {
          scrolled := false;
        }
      }
    }

    /** Handling offsets one after another leaves the class as the last one
        says; `added` counts the calls that added the class where it was
        absent, which is what Gains counts. */
    method HandleScrolls(offsets: seq<real>) returns (added: nat)
      modifies this
      ensures scrolled == AfterScrolls(present, old(scrolled), offsets)
      ensures present ==> added == Gains(old(scrolled), offsets)
      ensures !present ==> added == 0
    {
      var k := 0;
      added := 0;
      while k < |offsets|
        invariant 0 <= k <= |offsets|
        invariant AfterScrolls(present, scrolled, offsets[k..]) == AfterScrolls(present, old(scrolled), offsets)
        invariant present ==> added + Gains(scrolled, offsets[k..]) == Gains(old(scrolled), offsets)
        invariant !present ==> added == 0
      {
        assert offsets[k..][1..] == offsets[k + 1..];
        var before := scrolled;
        HandleScroll(offsets[k]);
        if !before && scrolled {
          added := added + 1;
        }
        k := k + 1;
      }
    }
  }

  /** What a scroll listener does when it runs. */
  datatype Outcome =
    | ReferenceError(name: string)   // an identifier it reads is not in scope
    | Handled(scrolled: bool)        // the class after the handler ran

  /** The identifiers declared in the script's outer function, where the
      topbar scroll listener is defined, including the two functions declared
      inside blocks, which sloppy-mode scripts also bind in the enclosing
      function. `ticking` is not among them: it is declared with `let` inside
      the block that runs only without reduced motion, and a `let` binding is
      not visible outside its block. */
  const ListenerScope: set<string> := {
    "prefersReduced", "yearEl", "toggle", "nav", "setExpanded", "openNav", "closeNav",
    "typingEl", "lines", "links", "sections", "sectionObserver", "lastScroll", "topbar",
    "handleTopbarScroll", "cardObserver", "scrollTicking", "optimizedScroll",
    "handleParallax", "smoothParallax"
  }

  /** The topbar scroll listener as written: its first act reads `ticking`; if
      that name were in scope and clear it would schedule handleTopbarScroll
      (modelled here as running it at once). */
  function TopbarListenerAsWritten(scope: set<string>, ticking: bool, present: bool, scrolled: bool, offset: real): (o: Outcome)
    ensures "ticking" !in scope ==> o == ReferenceError("ticking")
    ensures "ticking" in scope && !ticking && present ==> o == Handled(IsScrolled(offset))
  {
    if "ticking" !in scope then ReferenceError("ticking")
    else if ticking then Handled(scrolled)
    else Handled(if present then IsScrolled(offset) else scrolled)
  }

  /** Scrolling a present, unscrolled topbar to 51 pixels: the threshold rule
      asks for the class, but the listener as written throws before it can add
      it, so the class is never added. */
  lemma TopbarNeverScrolledAsWritten(ticking: bool)
    ensures IsScrolled(51.0)
    ensures TopbarListenerAsWritten(ListenerScope, ticking, true, false, 51.0) == ReferenceError("ticking")
  {
  }
}
