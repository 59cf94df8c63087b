/**
 * Skill bars: each `.skill-progress` bar gets `style.width` set to its
 * `data-progress` attribute followed by `%`, once by a pass over all bars
 * after page load, and again whenever a `.skill-item` holding a bar is
 * reported as intersecting (the observer never unobserves).
 *
 * The page is reduced to maps: `dataProgress` holds the attribute of each bar
 * that has one, `child` the first `.skill-progress` descendant of each item
 * that has one, `width` the inline width of each bar that has been given one.
 * The load timer's 500 ms delay is not modelled; the pass is an explicit step.
 */
module SkillBars {

  /** A `.skill-progress` element, by identity. */
  type Bar = nat
  /** A `.skill-item` element, by identity. */
  type Item = nat

  /** One IntersectionObserverEntry of the skill-item observer. */
  datatype Entry = Entry(target: Item, isIntersecting: bool)

  /**
   * `getAttribute('data-progress')` concatenated with `'%'`: a missing
   * attribute is `null`, which JavaScript's `+` turns into the text "null".
   */
  function WidthValue(dataProgress: map<Bar, string>, b: Bar): string
  {
    (if b in dataProgress then dataProgress[b] else "null") + "%"
  }

  /** The elements of a list, as a set. */
  function Members<T>(xs: seq<T>): set<T>
  {
    set x | x in xs
  }

  /** The widths after writing `WidthValue` to every bar of `targets`, starting from `w`. */
  function Written(w: map<Bar, string>, targets: set<Bar>, dataProgress: map<Bar, string>): map<Bar, string>
  {
    map b | b in w.Keys + targets :: if b in targets then WidthValue(dataProgress, b) else w[b]
  }

  /** The bars the observer callback writes for one batch: the first bar of each intersecting item that has one. */
  function Touched(entries: seq<Entry>, child: map<Item, Bar>): set<Bar>
  {
    set e | e in entries && e.isIntersecting && e.target in child :: child[e.target]
  }

  /** Each bar's width is written, and nothing else: the other bars keep theirs. */
  lemma WrittenAt(w: map<Bar, string>, targets: set<Bar>, dataProgress: map<Bar, string>, b: Bar)
    ensures b in targets ==>
      && b in Written(w, targets, dataProgress)
      && Written(w, targets, dataProgress)[b] == (if b in dataProgress then dataProgress[b] else "null") + "%"
    ensures b !in targets ==> (b in Written(w, targets, dataProgress) <==> b in w)
    ensures b !in targets && b in w ==> Written(w, targets, dataProgress)[b] == w[b]
  {
  }

  /** Two writes compose into one write of both target sets, in either order. */
  lemma WrittenCompose(w: map<Bar, string>, t1: set<Bar>, t2: set<Bar>, dataProgress: map<Bar, string>)
    ensures Written(Written(w, t1, dataProgress), t2, dataProgress) == Written(w, t1 + t2, dataProgress)
  {
    var lhs := Written(Written(w, t1, dataProgress), t2, dataProgress);
    var rhs := Written(w, t1 + t2, dataProgress);
    assert lhs.Keys == rhs.Keys;
    forall b | b in lhs.Keys ensures lhs[b] == rhs[b] {
    }
  }

  /** Writing the same bars again changes nothing. */
  lemma WrittenIdempotent(w: map<Bar, string>, targets: set<Bar>, dataProgress: map<Bar, string>)
    ensures Written(Written(w, targets, dataProgress), targets, dataProgress) == Written(w, targets, dataProgress)
  {
    WrittenCompose(w, targets, targets, dataProgress);
    assert targets + targets == targets;
  }

  /** A batch without intersecting entries writes nothing. */
  lemma NonIntersectingTouchesNothing(entries: seq<Entry>, child: map<Item, Bar>)
    requires forall e | e in entries :: !e.isIntersecting
    ensures Touched(entries, child) == {}
  {
  }

  /** An intersecting item without a `.skill-progress` child writes nothing. */
  lemma ChildlessItemTouchesNothing(entries: seq<Entry>, child: map<Item, Bar>)
    requires forall e | e in entries :: e.target !in child
    ensures Touched(entries, child) == {}
  {
  }

  /** An intersecting item with a child has that child's width written. */
  lemma IntersectingItemTouchesChild(entries: seq<Entry>, child: map<Item, Bar>, i: nat)
    requires i < |entries| && entries[i].isIntersecting && entries[i].target in child
    ensures child[entries[i].target] in Touched(entries, child)
  {
    assert entries[i] in entries;
  }

  /** Either of the two width passes. */
  datatype Pass = LoadPass | ObserverPass(entries: seq<Entry>)

  /** The bars one pass writes, given the page's bars (in document order) and item children. */
  function PassTargets(p: Pass, bars: seq<Bar>, child: map<Item, Bar>): set<Bar>
  {
    match p
    case LoadPass => Members(bars)
    case ObserverPass(entries) => Touched(entries, child)
  }

  function RunPasses(w: map<Bar, string>, passes: seq<Pass>, bars: seq<Bar>, child: map<Item, Bar>,
                     dataProgress: map<Bar, string>): map<Bar, string>
    decreases |passes|
  {
    if passes == [] then w
    else RunPasses(Written(w, PassTargets(passes[0], bars, child), dataProgress), passes[1..], bars, child, dataProgress)
  }

  /** Every bar written by some pass of the sequence. */
  function AllTargets(passes: seq<Pass>, bars: seq<Bar>, child: map<Item, Bar>): set<Bar>
    decreases |passes|
  {
    if passes == [] then {} else PassTargets(passes[0], bars, child) + AllTargets(passes[1..], bars, child)
  }

  /** Order does not matter: a run of passes is one write of every bar any of them touches. */
  lemma {:induction false} RunPassesIsOneWrite(w: map<Bar, string>, passes: seq<Pass>, bars: seq<Bar>,
                                               child: map<Item, Bar>, dataProgress: map<Bar, string>)
    ensures RunPasses(w, passes, bars, child, dataProgress)
         == Written(w, AllTargets(passes, bars, child), dataProgress)
    decreases |passes|
  {
    if passes == [] {
      assert Written(w, {}, dataProgress) == w;
    } else {
      var t := PassTargets(passes[0], bars, child);
      RunPassesIsOneWrite(Written(w, t, dataProgress), passes[1..], bars, child, dataProgress);
      WrittenCompose(w, t, AllTargets(passes[1..], bars, child), dataProgress);
    }
  }

  lemma {:induction false} AllTargetsWithin(passes: seq<Pass>, bars: seq<Bar>, child: map<Item, Bar>)
    requires forall i | i in child :: child[i] in bars
    ensures AllTargets(passes, bars, child) <= Members(bars)
    ensures LoadPass in passes ==> AllTargets(passes, bars, child) == Members(bars)
    decreases |passes|
  {
    if passes != [] {
      AllTargetsWithin(passes[1..], bars, child);
      if passes[0] != LoadPass && LoadPass in passes {
        assert LoadPass in passes[1..];
      }
    }
  }

  /**
   * Width assignment is idempotent across both triggers: when every item's
   * bar is one of the page's bars, any sequence of passes that includes the
   * load pass, in any order and with any repetition, leaves exactly the
   * widths of one load pass.
   */
  lemma PassesSettleToLoad(w: map<Bar, string>, passes: seq<Pass>, bars: seq<Bar>,
                           child: map<Item, Bar>, dataProgress: map<Bar, string>)
    requires forall i | i in child :: child[i] in bars
    requires LoadPass in passes
    ensures RunPasses(w, passes, bars, child, dataProgress) == RunPasses(w, [LoadPass], bars, child, dataProgress)
  {
    RunPassesIsOneWrite(w, passes, bars, child, dataProgress);
    RunPassesIsOneWrite(w, [LoadPass], bars, child, dataProgress);
    AllTargetsWithin(passes, bars, child);
    AllTargetsWithin([LoadPass], bars, child);
  }

  /** Repeating the observer on the same batch leaves the widths of a single run. */
  lemma ObserverRepeatable(w: map<Bar, string>, entries: seq<Entry>, k: nat, bars: seq<Bar>,
                           child: map<Item, Bar>, dataProgress: map<Bar, string>)
    requires k >= 1
    ensures RunPasses(w, seq(k, _ => ObserverPass(entries)), bars, child, dataProgress)
         == RunPasses(w, [ObserverPass(entries)], bars, child, dataProgress)
  {
    var passes := seq(k, _ => ObserverPass(entries));
    RunPassesIsOneWrite(w, passes, bars, child, dataProgress);
    RunPassesIsOneWrite(w, [ObserverPass(entries)], bars, child, dataProgress);
    AllTargetsRepeated(entries, k, bars, child);
  }

  lemma {:induction false} AllTargetsRepeated(entries: seq<Entry>, k: nat, bars: seq<Bar>, child: map<Item, Bar>)
    requires k >= 1
    ensures AllTargets(seq(k, _ => ObserverPass(entries)), bars, child) == Touched(entries, child)
  {
    var passes := seq(k, _ => ObserverPass(entries));
    if k > 1 {
      assert passes[1..] == seq(k - 1, _ => ObserverPass(entries));
      AllTargetsRepeated(entries, k - 1, bars, child);
    } else {
      assert passes[1..] == [];
    }
  }

  /** The skill section of the page and the skill-item observer. */
  class SkillSection {
    /** The `.skill-progress` elements, in document order. */
    var bars: seq<Bar>
    /** The `.skill-item` elements, in document order. */
    var items: seq<Item>
    /** `item.querySelector('.skill-progress')`, for the items where it is not null. */
    var child: map<Item, Bar>
    /** `data-progress` attributes, for the bars that have one. */
    var dataProgress: map<Bar, string>
    /** Inline `style.width` of each bar that has been given one. */
    var width: map<Bar, string>
    /** Items the observer watches. */
    var observed: set<Item>

    constructor (bars0: seq<Bar>, items0: seq<Item>, child0: map<Item, Bar>, dataProgress0: map<Bar, string>)
      ensures bars == bars0 && items == items0 && child == child0 && dataProgress == dataProgress0
      ensures width == map[] && observed == {}
    {
      bars := bars0;
      items := items0;
      child := child0;
      dataProgress := dataProgress0;
      width := map[];
      observed := {};
    }

    /** The timer callback after DOMContentLoaded: every bar, in document order. */
    method OnLoadTimer()
      modifies this`width
      ensures width == Written(old(width), Members(bars), dataProgress)
      ensures forall b | b in bars :: b in width && width[b] == WidthValue(dataProgress, b)
      ensures dataProgress == old(dataProgress)
    {
      var i := 0;
      while i < |bars|
        invariant 0 <= i <= |bars|
        invariant width == Written(old(width), Members(bars[..i]), dataProgress)
      {
        var bar := bars[i];
        var progress := if bar in dataProgress then dataProgress[bar] else "null";
        width := width[bar := progress + "%"];
        WrittenStep(old(width), bars[..i], bar, dataProgress);
        assert bars[..i + 1] == bars[..i] + [bar];
        i := i + 1;
      }
      assert bars[..i] == bars;
    }

    /** `document.querySelectorAll('.skill-item').forEach(item => observer.observe(item))`. */
    method ObserveItems()
      modifies this`observed
      ensures observed == old(observed) + set it | it in items
    {
      var i := 0;
      while i < |items|
        invariant 0 <= i <= |items|
        invariant observed == old(observed) + set it | it in items[..i]
      {
        observed := observed + {items[i]};
        assert items[..i + 1] == items[..i] + [items[i]];
        i := i + 1;
      }
      assert items[..i] == items;
    }

    /** The observer callback over one batch of entries; it never unobserves. */
    method OnIntersect(entries: seq<Entry>)
      modifies this`width
      ensures width == Written(old(width), Touched(entries, child), dataProgress)
      ensures observed == old(observed) && dataProgress == old(dataProgress)
    {
      var i := 0;
      while i < |entries|
        invariant 0 <= i <= |entries|
        invariant width == Written(old(width), Touched(entries[..i], child), dataProgress)
      {
        var entry := entries[i];
        assert entries[..i + 1] == entries[..i] + [entry];
        if entry.isIntersecting {
          if entry.target in child {
            var progressBar := child[entry.target];
            var progress := if progressBar in dataProgress then dataProgress[progressBar] else "null";
            width := width[progressBar := progress + "%"];
            TouchedStep(entries[..i], entry, child);
            WrittenInsert(old(width), Touched(entries[..i], child), progressBar, dataProgress);
          } else {
            TouchedStep(entries[..i], entry, child);
          }
        } else {
          TouchedStep(entries[..i], entry, child);
        }
        i := i + 1;
      }
      assert entries[..i] == entries;
    }
  }

  lemma WrittenInsert(w: map<Bar, string>, targets: set<Bar>, b: Bar, dataProgress: map<Bar, string>)
    ensures Written(w, targets, dataProgress)[b := WidthValue(dataProgress, b)]
         == Written(w, targets + {b}, dataProgress)
  {
  }

  lemma WrittenStep(w: map<Bar, string>, done: seq<Bar>, b: Bar, dataProgress: map<Bar, string>)
    ensures Written(w, Members(done), dataProgress)[b := WidthValue(dataProgress, b)]
         == Written(w, Members(done + [b]), dataProgress)
  {
    assert (Members(done + [b])) == (Members(done)) + {b};
    WrittenInsert(w, Members(done), b, dataProgress);
  }

  lemma TouchedStep(done: seq<Entry>, e: Entry, child: map<Item, Bar>)
    ensures Touched(done + [e], child)
         == Touched(done, child) + (if e.isIntersecting && e.target in child then {child[e.target]} else {})
  {
    var lhs := Touched(done + [e], child);
    var rhs := Touched(done, child) + (if e.isIntersecting && e.target in child then {child[e.target]} else {});
    forall b | b in lhs ensures b in rhs {
      var x :| x in done + [e] && x.isIntersecting && x.target in child && child[x.target] == b;
      if x != e {
        assert x in done;
      }
    }
    forall b | b in rhs ensures b in lhs {
      if b in Touched(done, child) {
        var x :| x in done && x.isIntersecting && x.target in child && child[x.target] == b;
        assert x in done + [e];
      } else {
        assert e in done + [e];
      }
    }
  }
}
