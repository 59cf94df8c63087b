/**
 * Scroll reveal: every `.reveal` element is watched by an intersection
 * observer; the first time one is reported as intersecting it gets the
 * `visible` class and is unobserved, so it never fires again.
 *
 * The observer's watched set is `observed`; the elements carrying the
 * `visible` class form `visible`. The visibility-ratio geometry is the
 * host's business: each delivered entry says whether it intersects.
 */
module ScrollReveal {

  /** A page element, by identity. */
  type Element = nat

  /** One IntersectionObserverEntry: its target and whether it is in view. */
  datatype Entry = Entry(target: Element, isIntersecting: bool)

  /** The bookkeeping the reveal behaviour keeps between callbacks. */
  datatype Snapshot = Snapshot(observed: set<Element>, visible: set<Element>)

  /** Targets of the intersecting entries of one batch. */
  function Hits(entries: seq<Entry>): set<Element>
  {
    set e | e in entries && e.isIntersecting :: e.target
  }

  /** The callback's effect on one batch of entries, as a function of the state before it. */
  function Callback(s: Snapshot, entries: seq<Entry>): Snapshot
  {
    Snapshot(s.observed - Hits(entries), s.visible + Hits(entries))
  }

  /** Every element is either still watched or already revealed, never both. */
  ghost predicate Consistent(s: Snapshot)
  {
    s.observed !! s.visible
  }

  /** The host only reports targets it is currently watching. */
  ghost predicate Delivered(s: Snapshot, entries: seq<Entry>)
  {
    forall e | e in entries :: e.target in s.observed
  }

  /** A run of callbacks in which every batch is one the host could deliver. */
  ghost predicate HostRun(s: Snapshot, batches: seq<seq<Entry>>)
    decreases |batches|
  {
    batches == [] ||
    (Delivered(s, batches[0]) && HostRun(Callback(s, batches[0]), batches[1..]))
  }

  function Run(s: Snapshot, batches: seq<seq<Entry>>): Snapshot
    decreases |batches|
  {
    if batches == [] then s else Run(Callback(s, batches[0]), batches[1..])
  }

  /** Number of batches holding an intersecting entry for `el`: how often it is marked visible. */
  function MarkingBatches(batches: seq<seq<Entry>>, el: Element): nat
    decreases |batches|
  {
    if batches == [] then 0
    else (if el in Hits(batches[0]) then 1 else 0) + MarkingBatches(batches[1..], el)
  }

  /** A batch with no intersecting entry changes nothing. */
  lemma NonIntersectingIsNoOp(s: Snapshot, entries: seq<Entry>)
    requires forall e | e in entries :: !e.isIntersecting
    ensures Callback(s, entries) == s
  {
    assert Hits(entries) == {};
  }

  /** An intersecting entry marks its target visible and stops watching it. */
  lemma IntersectingEntryReveals(s: Snapshot, entries: seq<Entry>, i: nat)
    requires i < |entries| && entries[i].isIntersecting
    ensures entries[i].target in Callback(s, entries).visible
    ensures entries[i].target !in Callback(s, entries).observed
  {
    assert entries[i] in entries;
  }

  /** The callback keeps every element watched or revealed, never both. */
  lemma CallbackKeepsConsistent(s: Snapshot, entries: seq<Entry>)
    requires Consistent(s)
    ensures Consistent(Callback(s, entries))
  {
  }

  /** Revealed elements stay revealed and no element is watched again. */
  lemma {:induction false} RunMonotone(s: Snapshot, batches: seq<seq<Entry>>)
    ensures s.visible <= Run(s, batches).visible
    ensures Run(s, batches).observed <= s.observed
    decreases |batches|
  {
    if batches != [] {
      RunMonotone(Callback(s, batches[0]), batches[1..]);
    }
  }

  /**
   * Once revealed, an element is never reported again: no later batch the
   * host delivers holds an entry for it.
   */
  lemma {:induction false} NeverRetriggers(s: Snapshot, batches: seq<seq<Entry>>, el: Element)
    requires Consistent(s) && HostRun(s, batches) && el in s.visible
    ensures forall k, e | 0 <= k < |batches| && e in batches[k] :: e.target != el
    decreases |batches|
  {
    if batches != [] {
      NeverRetriggers(Callback(s, batches[0]), batches[1..], el);
      forall k, e | 0 <= k < |batches| && e in batches[k] ensures e.target != el {
        if k > 0 {
          assert batches[k] == batches[1..][k - 1];
        }
      }
    }
  }

  /**
   * Fire once: over any run the host can deliver, from a consistent state,
   * an element is marked visible in at most one callback, and not at all if
   * it was visible already.
   */
  lemma {:induction false} MarkedAtMostOnce(s: Snapshot, batches: seq<seq<Entry>>, el: Element)
    requires Consistent(s) && HostRun(s, batches)
    ensures MarkingBatches(batches, el) <= 1
    ensures el in s.visible ==> MarkingBatches(batches, el) == 0
    decreases |batches|
  {
    if batches != [] {
      var next := Callback(s, batches[0]);
      MarkedAtMostOnce(next, batches[1..], el);
      if el in s.visible {
        assert el !in Hits(batches[0]);
      }
    }
  }

  /** The reveal behaviour's live state. */
  class Reveal {
    /** Elements the observer still watches. */
    var observed: set<Element>
    /** Elements carrying the `visible` class. */
    var visible: set<Element>

    constructor ()
      ensures observed == {} && visible == {}
    {
      observed := {};
      visible := {};
    }

    function Snap(): Snapshot
      reads this
    {
      Snapshot(observed, visible)
    }

    /** `revealEls.forEach(el => revealObserver.observe(el))`. */
    method ObserveAll(els: seq<Element>)
      modifies this
      ensures observed == old(observed) + set el | el in els
      ensures visible == old(visible)
    {
      var i := 0;
      while i < |els|
        invariant 0 <= i <= |els|
        invariant observed == old(observed) + set el | el in els[..i]
        invariant visible == old(visible)
      {
        observed := observed + {els[i]};
        i := i + 1;
        assert els[..i] == els[..i - 1] + [els[i - 1]];
      }
      assert els[..i] == els;
    }

    /** The observer callback over one batch of entries, in delivery order. */
    method OnIntersect(entries: seq<Entry>)
      modifies this
      ensures observed == old(observed) - Hits(entries)
      ensures visible == old(visible) + Hits(entries)
      ensures Snap() == Callback(old(Snap()), entries)
    {
      var i := 0;
      while i < |entries|
        invariant 0 <= i <= |entries|
        invariant observed == old(observed) - Hits(entries[..i])
        invariant visible == old(visible) + Hits(entries[..i])
      {
        var entry := entries[i];
        if entry.isIntersecting {
          visible := visible + {entry.target};
          observed := observed - {entry.target};
        }
        assert entries[..i + 1] == entries[..i] + [entry];
        assert Hits(entries[..i + 1]) == Hits(entries[..i]) + (if entry.isIntersecting then {entry.target} else {});
        i := i + 1;
      }
      assert entries[..i] == entries;
    }
  }
}
