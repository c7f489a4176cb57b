/** The section highlighter: nav links that point into the page, and the
    observer callback that marks as active the link of the most visible section
    of each batch. */
module Highlight {
  import opened Wrappers
  import opened Intersection

  /** A `.nav__link` anchor: its `href` attribute, if any, and whether it has
      the `is-active` class. */
  datatype Link = Link(href: Option<string>, active: bool)

  /** The `href` starts with `#`; an anchor without `href` does not qualify. */
  predicate IsInPageLink(a: Link) {
    a.href.Some? && |a.href.value| > 0 && a.href.value[0] == '#'
  }

  /** The links the highlighter works on: the anchors whose `href` starts with
      `#`, in document order. Whether the target element exists plays no part. */
  function InPageLinks(anchors: seq<Link>): (r: seq<Link>)
    ensures |r| <= |anchors|
    ensures forall a :: a in r <==> a in anchors && IsInPageLink(a)
  {
    if anchors == [] then []
    else (if IsInPageLink(anchors[0]) then [anchors[0]] else []) + InPageLinks(anchors[1..])
  }

  /** The link's `href` names an element id present in the page. */
  predicate Resolves(a: Link, ids: set<string>)
    requires IsInPageLink(a)
  {
    a.href.value[1..] in ids
  }

  /** The number of sections found for the links. */
  function SectionCount(links: seq<Link>, ids: set<string>): (n: nat)
    requires forall a :: a in links ==> IsInPageLink(a)
    ensures n <= |links|
    ensures n > 0 <==> exists a :: a in links && Resolves(a, ids)
  {
    if links == [] then 0
    else (if Resolves(links[0], ids) then 1 else 0) + SectionCount(links[1..], ids)
  }

  /** The observer is created only when there is at least one link and at
      least one section it points to. */
  predicate Observes(anchors: seq<Link>, ids: set<string>) {
    var links := InPageLinks(anchors);
    SectionCount(links, ids) > 0 && |links| > 0
  }

  /** The observer is created exactly when some anchor's `href` starts with `#`
      and names an element id of the page. */
  lemma ObservesIff(anchors: seq<Link>, ids: set<string>)
    ensures Observes(anchors, ids) <==>
      exists a :: a in anchors && IsInPageLink(a) && Resolves(a, ids)
  {
    var links := InPageLinks(anchors);
    if exists a :: a in anchors && IsInPageLink(a) && Resolves(a, ids) {
      var a :| a in anchors && IsInPageLink(a) && Resolves(a, ids);
      assert a in links;
    }
  }

  /** `entries.filter(e => e.isIntersecting)`. */
  function Intersecting(es: seq<Entry>): (r: seq<Entry>)
    ensures |r| <= |es|
    ensures forall e :: e in r <==> e in es && e.isIntersecting
  {
    if es == [] then []
    else (if es[0].isIntersecting then [es[0]] else []) + Intersecting(es[1..])
  }

  /** The filter keeps batch order: filtering a concatenation is
      concatenating the filtered parts. */
  lemma {:induction false} IntersectingAppend(a: seq<Entry>, b: seq<Entry>)
    ensures Intersecting(a + b) == Intersecting(a) + Intersecting(b)
    decreases |a|
  {
    if a != [] {
      assert (a + b)[0] == a[0] && (a + b)[1..] == a[1..] + b;
      IntersectingAppend(a[1..], b);
    } else {
      assert a + b == b;
    }
  }

  /** A single entry is kept exactly when it intersects. */
  lemma IntersectingSingle(e: Entry)
    ensures Intersecting([e]) == if e.isIntersecting then [e] else []
  {
    assert [e][1..] == [];
  }

  /** Ratios never increase along the sequence. */
  ghost predicate Descending(s: seq<Entry>) {
    forall k :: 0 <= k < |s| - 1 ==> s[k].ratio >= s[k + 1].ratio
  }

  /** Places `x`, which came before every entry of `t` in the batch, in front of
      the first entry whose ratio it is not below: equal ratios keep batch order. */
  function Insert(x: Entry, t: seq<Entry>): (r: seq<Entry>)
    ensures multiset(r) == multiset(t) + multiset{x}
    ensures Descending(t) ==> Descending(r)
    ensures r[0] == if t != [] && t[0].ratio > x.ratio then t[0] else x
  {
    if t == [] then [x]
    else if t[0].ratio <= x.ratio then [x] + t
    else
      assert t == [t[0]] + t[1..];
      [t[0]] + Insert(x, t[1..])
  }

  /** `sort((a, b) => b.intersectionRatio - a.intersectionRatio)`: a stable sort
      by descending ratio. */
  function SortByRatio(es: seq<Entry>): (r: seq<Entry>)
    ensures multiset(r) == multiset(es)
    ensures Descending(r)
  {
    if es == [] then []
    else
      assert es == [es[0]] + es[1..];
      Insert(es[0], SortByRatio(es[1..]))
  }

  /** The entry the callback picks: the head of the sorted intersecting entries. */
  function Chosen(es: seq<Entry>): (r: Option<Entry>)
    ensures r.None? <==> Intersecting(es) == []
    ensures r.Some? ==> r.value in es && r.value.isIntersecting
  {
    var sorted := SortByRatio(Intersecting(es));
    if sorted == [] then None
    else
      assert sorted[0] in multiset(sorted);
      Some(sorted[0])
  }

  /** Entry `k` intersects, no intersecting entry has a higher ratio, and every
      intersecting entry before it has a strictly lower one. */
  ghost predicate IsFirstMax(es: seq<Entry>, k: int) {
    && 0 <= k < |es|
    && es[k].isIntersecting
    && (forall j :: 0 <= j < |es| && es[j].isIntersecting ==> es[j].ratio <= es[k].ratio)
    && (forall j :: 0 <= j < k && es[j].isIntersecting ==> es[j].ratio < es[k].ratio)
  }

  /** There is at most one earliest maximal entry. */
  lemma FirstMaxUnique(es: seq<Entry>, j: int, k: int)
    requires IsFirstMax(es, j) && IsFirstMax(es, k)
    ensures j == k
  {
  }

  /** How the choice for a batch follows from the choice for its tail: a first
      entry that intersects wins unless the tail's choice has a strictly higher
      ratio. */
  lemma ChosenCons(x: Entry, rest: seq<Entry>)
    ensures Chosen([x] + rest) == ConsChoice(x, Chosen(rest))
  {
    var es := [x] + rest;
    assert es[0] == x && es[1..] == rest;
    if x.isIntersecting {
      assert Intersecting(es) == [x] + Intersecting(rest);
      assert SortByRatio(Intersecting(es)) == Insert(x, SortByRatio(Intersecting(rest)));
    } else {
      assert Intersecting(es) == Intersecting(rest);
    }
  }

  lemma FirstMaxShift(x: Entry, rest: seq<Entry>, k: int)
    requires IsFirstMax(rest, k)
    requires x.isIntersecting ==> x.ratio < rest[k].ratio
    ensures IsFirstMax([x] + rest, k + 1)
  {
    var es := [x] + rest;
    forall j | 0 <= j < |es| && es[j].isIntersecting
      ensures es[j].ratio <= es[k + 1].ratio
    {
      if j > 0 {
        assert es[j] == rest[j - 1];
      }
    }
  }

  lemma FirstMaxHead(x: Entry, rest: seq<Entry>)
    requires x.isIntersecting
    requires forall j :: 0 <= j < |rest| && rest[j].isIntersecting ==> rest[j].ratio <= x.ratio
    ensures IsFirstMax([x] + rest, 0)
  {
    var es := [x] + rest;
    forall j | 0 <= j < |es| && es[j].isIntersecting
      ensures es[j].ratio <= x.ratio
    {
      if j > 0 {
        assert es[j] == rest[j - 1];
      }
    }
  }

  /** `o` is a correct choice for `es`: nothing exactly when no entry
      intersects, and otherwise the earliest maximal intersecting entry. */
  ghost predicate ChoiceFor(es: seq<Entry>, o: Option<Entry>) {
    && (o.None? <==> forall k :: 0 <= k < |es| ==> !es[k].isIntersecting)
    && (o.Some? ==> exists k :: IsFirstMax(es, k) && es[k] == o.value)
  }

  /** The choice for a batch, given the choice `o` for its tail: a first entry
      that intersects wins unless the tail's choice has a strictly higher ratio. */
  function ConsChoice(x: Entry, o: Option<Entry>): Option<Entry> {
    if !x.isIntersecting then o
    else if o.Some? && o.value.ratio > x.ratio then o
    else Some(x)
  }

  /** A correct choice for the tail extends to a correct choice for the batch. */
  lemma ConsChoiceCorrect(x: Entry, rest: seq<Entry>, o: Option<Entry>)
    requires ChoiceFor(rest, o)
    ensures ChoiceFor([x] + rest, ConsChoice(x, o))
  {
    var es := [x] + rest;
    if o.Some? {
      var k :| IsFirstMax(rest, k) && rest[k] == o.value;
      if !x.isIntersecting || x.ratio < rest[k].ratio {
        FirstMaxShift(x, rest, k);
        assert es[k + 1] == rest[k];
      } else {
        FirstMaxHead(x, rest);
      }
    } else if x.isIntersecting {
      FirstMaxHead(x, rest);
    } else {
      forall j | 0 <= j < |es| ensures !es[j].isIntersecting {
        if j > 0 {
          assert es[j] == rest[j - 1];
        }
      }
    }
  }

  /** The chosen entry exists exactly when some entry intersects, and it is the
      intersecting entry of highest ratio that comes first in the batch. */
  lemma {:induction false} ChosenIsFirstMax(es: seq<Entry>)
    ensures Chosen(es).None? <==> forall k :: 0 <= k < |es| ==> !es[k].isIntersecting
    ensures Chosen(es).Some? ==> exists k :: IsFirstMax(es, k) && es[k] == Chosen(es).value
  {
    if es != [] {
      var x, rest := es[0], es[1..];
      assert es == [x] + rest;
      ChosenIsFirstMax(rest);
      ChosenCons(x, rest);
      ConsChoiceCorrect(x, rest, Chosen(rest));
    }
    assert ChoiceFor(es, Chosen(es));
  }

  /** `a.classList.toggle("is-active", a.getAttribute("href") === id)` on every
      link. */
  function MarkActive(links: seq<Link>, id: string): (r: seq<Link>)
    ensures |r| == |links|
    ensures forall k :: 0 <= k < |r| ==>
      r[k].href == links[k].href && (r[k].active <==> links[k].href == Some(id))
  {
    if links == [] then []
    else [links[0].(active := links[0].href == Some(id))] + MarkActive(links[1..], id)
  }

  /** The highlight callback for one batch: with no intersecting entry the
      links stay as they are; otherwise only the links pointing at the chosen
      entry's target are active. */
  function OnBatch(es: seq<Entry>, links: seq<Link>): (r: seq<Link>)
    ensures |r| == |links|
    ensures forall k :: 0 <= k < |r| ==> r[k].href == links[k].href
    ensures Chosen(es).None? ==> r == links
    ensures Chosen(es).Some? ==> forall k :: 0 <= k < |r| ==>
      (r[k].active <==> links[k].href == Some("#" + Chosen(es).value.targetId))
  {
    match Chosen(es)
    case None => links
    case Some(visible) => MarkActive(links, "#" + visible.targetId)
  }

  /** What a batch does to the links, in terms of the entries alone. */
  lemma {:induction false} OnBatchEffect(es: seq<Entry>, links: seq<Link>)
    ensures (forall k :: 0 <= k < |es| ==> !es[k].isIntersecting) ==> OnBatch(es, links) == links
    ensures (exists k :: 0 <= k < |es| && es[k].isIntersecting) ==>
      exists c ::
        && IsFirstMax(es, c)
        && |OnBatch(es, links)| == |links|
        && forall k :: 0 <= k < |links| ==>
             && OnBatch(es, links)[k].href == links[k].href
             && (OnBatch(es, links)[k].active <==> links[k].href == Some("#" + es[c].targetId))
  {
    ChosenIsFirstMax(es);
    var r := OnBatch(es, links);
    if Chosen(es).Some? {
      var c :| IsFirstMax(es, c) && es[c] == Chosen(es).value;
      assert forall k :: 0 <= k < |links| ==>
        r[k].href == links[k].href && (r[k].active <==> links[k].href == Some("#" + es[c].targetId));
    }
  }

  /** With ratios 0.3 and 0.6 for sections A and B, only B's link ends up active. */
  lemma TwoSectionsExample()
    ensures
      var es := [Entry(1, "a", true, 0.3), Entry(2, "b", true, 0.6)];
      var links := [Link(Some("#a"), true), Link(Some("#b"), false)];
      OnBatch(es, links) == [Link(Some("#a"), false), Link(Some("#b"), true)]
  {
    var a, b := Entry(1, "a", true, 0.3), Entry(2, "b", true, 0.6);
    ChosenCons(b, []);
    assert [b] + [] == [b];
    ChosenCons(a, [b]);
    assert [a] + [b] == [a, b];
    assert Chosen([a, b]) == Some(b);
    var links := [Link(Some("#a"), true), Link(Some("#b"), false)];
    assert "#" + "b" == "#b";
    var r := MarkActive(links, "#b");
    assert r[0] == Link(Some("#a"), false) && r[1] == Link(Some("#b"), true);
  }
}
