/** One record of a visibility-change batch, as an intersection observer
    delivers it to its callback. Elements are known only by an identity and by
    their `id` attribute; the layout that produces the ratios is not modelled. */
module Intersection {

  /** The identity of a DOM element. */
  type Element = nat

  datatype Entry = Entry(
    target: Element,      // `entry.target`
    targetId: string,     // `entry.target.id`
    isIntersecting: bool, // `entry.isIntersecting`
    ratio: real           // `entry.intersectionRatio`, only ever compared
  )

  /** The targets of the intersecting entries of a batch. */
  function IntersectingTargets(es: seq<Entry>): (r: set<Element>)
    ensures forall t :: t in r <==> exists k :: 0 <= k < |es| && es[k].isIntersecting && es[k].target == t
    decreases |es|
  {
    if es == [] then {}
    else
      var last := es[|es| - 1];
      IntersectingTargets(es[..|es| - 1]) + (if last.isIntersecting then {last.target} else {})
  }
}
