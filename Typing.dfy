/** The rotating headline: a type/delete state machine over three fixed phrases.
    Each tick shows a prefix of the current phrase, moves the cursor one step and
    picks the delay before the next tick. The timer itself is not modelled: the
    loop is a sequence of single Tick calls. */
module Typing {
  import opened Wrappers

  /** The phrases shown in turn. */
  const Lines: seq<string> := [
    "Cybersecurity & Incident Response Engineer.",
    "SOC • SIEM • Threat Hunting • Detection Engineering.",
    "Security automation, labs, and practical investigations."
  ]

  /** Extra ticks the cursor keeps typing past the end of a phrase before deleting. */
  const Overshoot: nat := 6
  /** Delay in milliseconds before the next tick while typing. */
  const TypeDelay: nat := 40
  /** Delay in milliseconds before the next tick while deleting. */
  const DeleteDelay: nat := 22

  /** The closure variables of the animator: current phrase, cursor, direction. */
  datatype State = State(line: int, i: int, deleting: bool)

  const Initial: State := State(0, 0, false)

  function Min(a: int, b: int): int { if a <= b then a else b }
  function Max(a: int, b: int): int { if a <= b then b else a }

  /** `s.slice(0, end)` for a string: a negative end counts back from the end of `s`. */
  function SliceTo(s: string, end: int): (r: string)
    ensures r <= s
    ensures |r| == if end >= 0 then Min(end, |s|) else Max(|s| + end, 0)
  {
    if end >= 0 then s[..Min(end, |s|)] else s[..Max(|s| + end, 0)]
  }

  /** The state between two ticks: a valid phrase index, a cursor that is never
      negative and at most one past the overshoot, and at most the overshoot
      itself while still typing. */
  predicate Inv(s: State) {
    && 0 <= s.line < |Lines|
    && 0 <= s.i <= |Lines[s.line]| + Overshoot + 1
    && (!s.deleting ==> s.i <= |Lines[s.line]| + Overshoot)
  }

  /** The text a tick displays: the slice taken with the cursor as it was before
      the post-increment or post-decrement. Under the invariant the slice end is
      never negative, so this is the prefix of length min(i, |phrase|). */
  function Shown(s: State): (r: string)
    requires Inv(s)
    ensures r <= Lines[s.line]
    ensures |r| == Min(s.i, |Lines[s.line]|)
  {
    SliceTo(Lines[s.line], s.i)
  }

  /** The state after one tick. */
  function Step(s: State): (r: State)
    requires 0 <= s.line < |Lines|
    ensures Inv(s) ==> Inv(r)
    ensures r.deleting ==> r.line == s.line
  {
    var len := |Lines[s.line]|;
    var i := if s.deleting then s.i - 1 else s.i + 1;
    var deleting := if !s.deleting && i > len + Overshoot then true else s.deleting;
    if deleting && i < 0 then State((s.line + 1) % |Lines|, 0, false)
    else State(s.line, i, deleting)
  }

  /** The delay a tick asks for, read after the tick's updates. */
  function DelayAfter(r: State): (d: nat)
    ensures d == DeleteDelay <==> r.deleting
    ensures d == TypeDelay <==> !r.deleting
  {
    if r.deleting then DeleteDelay else TypeDelay
  }

  /** The state after `n` ticks. */
  function Iterate(s: State, n: nat): (r: State)
    requires Inv(s)
    ensures Inv(r)
    decreases n
  {
    if n == 0 then s else Iterate(Step(s), n - 1)
  }

  /** While typing, the cursor moves up by one; deleting starts exactly on the
      tick whose post-increment cursor passes the overshoot. */
  lemma TypingStep(s: State)
    requires Inv(s) && !s.deleting
    ensures Step(s).line == s.line && Step(s).i == s.i + 1
    ensures Step(s).deleting <==> s.i + 1 > |Lines[s.line]| + Overshoot
    ensures Step(s).deleting <==> s.i == |Lines[s.line]| + Overshoot
  {
  }

  /** While deleting, the cursor drops by exactly one per tick until it would
      become negative; then the animator moves to the next phrase and types again. */
  lemma DeletingStep(s: State)
    requires Inv(s) && s.deleting
    ensures s.i > 0 ==> Step(s) == State(s.line, s.i - 1, true)
    ensures s.i == 0 ==> Step(s) == State((s.line + 1) % |Lines|, 0, false)
  {
  }

  /** The tick that starts deleting asks for the short delay; the tick that wraps
      to the next phrase asks for the long one. */
  lemma FlipAndWrapDelays(s: State)
    requires Inv(s)
    ensures !s.deleting && s.i == |Lines[s.line]| + Overshoot ==> DelayAfter(Step(s)) == DeleteDelay
    ensures s.deleting && s.i == 0 ==> DelayAfter(Step(s)) == TypeDelay
  {
  }

  lemma {:induction false} IterateAdd(s: State, a: nat, b: nat)
    requires Inv(s)
    ensures Iterate(s, a + b) == Iterate(Iterate(s, a), b)
    decreases a
  {
    if a > 0 {
      IterateAdd(Step(s), a - 1, b);
    }
  }

  /** Typing up from cursor `j`: `k` ticks later the cursor is at `j + k`, as long
      as it has not passed the overshoot. */
  lemma {:induction false} TypeUp(line: int, j: nat, k: nat)
    requires 0 <= line < |Lines|
    requires j + k <= |Lines[line]| + Overshoot
    ensures Inv(State(line, j, false))
    ensures Iterate(State(line, j, false), k) == State(line, j + k, false)
    decreases k
  {
    if k > 0 {
      assert Step(State(line, j, false)) == State(line, j + 1, false);
      TypeUp(line, j + 1, k - 1);
    }
  }

  /** Deleting down from cursor `j`: `k` ticks later the cursor is at `j - k`. */
  lemma {:induction false} DeleteDown(line: int, j: nat, k: nat)
    requires 0 <= line < |Lines|
    requires k <= j <= |Lines[line]| + Overshoot + 1
    ensures Inv(State(line, j, true))
    ensures Iterate(State(line, j, true), k) == State(line, j - k, true)
    decreases k
  {
    if k > 0 {
      assert Step(State(line, j, true)) == State(line, j - 1, true);
      DeleteDown(line, j - 1, k - 1);
    }
  }

  /** A full cycle: from the start of a phrase of length L, after exactly
      2L + 15 ticks (L + 7 typing, L + 8 deleting) the animator is at the start
      of the next phrase, typing. */
  lemma {:induction false} FullCycle(line: int)
    requires 0 <= line < |Lines|
    ensures Inv(State(line, 0, false))
    ensures Iterate(State(line, 0, false), 2 * |Lines[line]| + 15)
         == State((line + 1) % |Lines|, 0, false)
  {
    var len := |Lines[line]|;
    var s0 := State(line, 0, false);
    var top := State(line, len + Overshoot + 1, true);
    TypeUp(line, 0, len + Overshoot);
    assert Iterate(s0, len + Overshoot) == State(line, len + Overshoot, false);
    assert Iterate(State(line, len + Overshoot, false), 1) == top;
    IterateAdd(s0, len + Overshoot, 1);
    DeleteDown(line, len + Overshoot + 1, len + Overshoot + 1);
    assert Iterate(State(line, 0, true), 1) == State((line + 1) % |Lines|, 0, false);
    IterateAdd(s0, len + Overshoot + 1, len + Overshoot + 1);
    IterateAdd(s0, 2 * len + 14, 1);
  }

  /** What the page does with the typing element at start-up. */
  datatype Startup =
    | NoTarget                    // no typing element on the page
    | StaticText(text: string)    // reduced motion: first phrase, no ticks
    | Animated(first: Typer)      // animator created and ticked once

  /** The animator's state and the typing element's text. */
  class Typer {
    var line: int
    var i: int
    var deleting: bool
    /** The text content of the typing element. */
    var text: string

    function Snapshot(): State
      reads this
    {
      State(line, i, deleting)
    }

    ghost predicate Valid()
      reads this
    {
      Inv(Snapshot())
    }

    constructor (initialText: string)
      ensures Valid() && Snapshot() == Initial && text == initialText
    {
      line, i, deleting := 0, 0, false;
      text := initialText;
    }

    /** One tick: show the slice for the old cursor, move the cursor, flip or wrap,
        and return the delay before the next tick. */
    method Tick() returns (delay: nat)
      requires Valid()
      modifies this
      ensures Valid()
      ensures Snapshot() == Step(old(Snapshot()))
      ensures text == Shown(old(Snapshot()))
      ensures delay == DelayAfter(Snapshot())
    {
      var current := Lines[line];
      if deleting {
        text := SliceTo(current, i);
        i := i - 1;
      } else {
        text := SliceTo(current, i);
        i := i + 1;
      }
      if !deleting && i > |current| + Overshoot {
        deleting := true;
      }
      if deleting && i < 0 {
        deleting := false;
        line := (line + 1) % |Lines|;
        i := 0;
      }
      delay := if deleting then DeleteDelay else TypeDelay;
    }
  }

  /** Start-up: with a typing element and no reduced-motion preference the
      animator starts from the first phrase and ticks once at once; with reduced
      motion the element shows the first phrase and no tick runs. */
  method Start(hasTarget: bool, prefersReduced: bool, initialText: string)
    returns (s: Startup, firstDelay: Option<nat>)
    ensures !hasTarget ==> s == NoTarget && firstDelay == None
    ensures hasTarget && prefersReduced ==> s == StaticText(Lines[0]) && firstDelay == None
    ensures hasTarget && !prefersReduced ==>
      && s.Animated? && fresh(s.first) && s.first.Valid()
      && s.first.Snapshot() == Step(Initial)
      && s.first.text == Shown(Initial) == ""
      && firstDelay == Some(TypeDelay)
  {
    if hasTarget && !prefersReduced {
      var t := new Typer(initialText);
      var d := t.Tick();
      s, firstDelay := Animated(t), Some(d);
    } else if hasTarget {
      s, firstDelay := StaticText(Lines[0]), None;
    } else {
      s, firstDelay := NoTarget, None;
    }
  }
}
