/**
 * Which top-level files one run of clone.js writes after the page has settled:
 * `rendered.html` always; `domsnapshot.json` only when the snapshot call
 * succeeded; `scrolltriggers.json` and `gsap_tweens.json` only when the page
 * evaluation returned a non-empty list for them.
 */
module Artifacts {
  import opened Wrappers

  /** One mapped scroll trigger or tween, in its JSON form. */
  datatype Descriptor = Descriptor(json: string)

  /**
   * What the animation probe returned: each list is absent when the page has no
   * such library. A probe that threw is `None` at the call site, i.e. `{}`.
   */
  datatype AnimData = AnimData(scrollTriggers: Option<seq<Descriptor>>, gsapTweens: Option<seq<Descriptor>>)

  const RenderedHtml: string := "rendered.html"
  const DomSnapshot: string := "domsnapshot.json"
  const ScrollTriggers: string := "scrolltriggers.json"
  const GsapTweens: string := "gsap_tweens.json"

  /** `animData?.<list>?.length` is truthy. */
  predicate HasEntries(list: Option<seq<Descriptor>>) {
    list.Some? && |list.value| > 0
  }

  /**
   * The files written, in the order they are written. `snapshot` is the serialised
   * DOM snapshot, `None` when capturing or writing it threw; `anim` is `None` when
   * the page evaluation threw.
   */
  function OutputFiles(snapshot: Option<string>, anim: Option<AnimData>): (files: seq<string>)
    ensures |files| >= 1 && files[0] == RenderedHtml
    ensures DomSnapshot in files <==> snapshot.Some?
    ensures ScrollTriggers in files <==> anim.Some? && HasEntries(anim.value.scrollTriggers)
    ensures GsapTweens in files <==> anim.Some? && HasEntries(anim.value.gsapTweens)
    ensures forall f :: f in files ==> f in {RenderedHtml, DomSnapshot, ScrollTriggers, GsapTweens}
    ensures forall i, j :: 0 <= i < j < |files| ==> files[i] != files[j]
  {
    var data := anim.GetOr(AnimData(None, None));
    [RenderedHtml]
      + (if snapshot.Some? then [DomSnapshot] else [])
      + (if HasEntries(data.scrollTriggers) then [ScrollTriggers] else [])
      + (if HasEntries(data.gsapTweens) then [GsapTweens] else [])
  }

  /** A failed snapshot costs only `domsnapshot.json`: the animation files do not depend on it. */
  lemma SnapshotFailureIsIsolated(snap: string, anim: Option<AnimData>)
    ensures OutputFiles(None, anim) == [RenderedHtml] + OutputFiles(Some(snap), anim)[2..]
  {
  }
}
