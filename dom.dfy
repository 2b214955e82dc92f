/**
 * The capture agent's view of the page: element records read from the DOM, the
 * `getElementInfo` snapshot and the `getVisibleElements` scan. DOM queries are
 * inputs here: an element is the record of the properties the agent reads, and
 * a document is the sequence `querySelectorAll('*')` yields, in document order.
 */
module Dom {
  import opened Wrappers
  import opened JsString

  /** A bounding client rectangle, with integer coordinates. */
  datatype Rect = Rect(top: int, left: int, width: int, height: int)

  /** The properties of a DOM element the agent reads. */
  datatype Element = Element(
    tagName: string,
    id: string,
    className: string,
    textContent: string,
    isContentEditable: bool,
    rect: Rect)

  datatype Viewport = Viewport(width: int, height: int)

  /** A scroll offset (`scrollX`, `scrollY`). */
  datatype Offset = Offset(x: int, y: int)

  /** The parts of `window` the agent reads. */
  datatype Window = Window(pathname: string, href: string, viewport: Viewport, scroll: Offset)

  /** The value snapshot `getElementInfo` returns. */
  datatype ElementInfo = ElementInfo(
    tag: string,
    id: Option<string>,
    cls: Option<string>,
    text: Option<string>,
    position: Rect)

  /** One entry of the visible-element list sent with a page view. */
  datatype VisibleElement = VisibleElement(tag: string, id: Option<string>, cls: Option<string>, position: Rect)

  const TEXT_LIMIT := 50
  const TEXT_KEEP := 47
  const ELLIPSIS := "..."

  /** JavaScript's `s || null` on a string: the empty string is falsy. */
  function OrNull(s: string): (r: Option<string>)
    ensures r.None? <==> s == ""
    ensures r.Some? ==> r.value == s
  {
    if s == "" then None else Some(s)
  }

  /**
   * The text part of `getElementInfo`: the trimmed text content, cut to its first
   * 47 characters and an ellipsis when longer than 50, and `null` when empty.
   */
  function SnapshotText(textContent: string): (r: Option<string>)
    ensures r.None? <==> Trim(textContent) == ""
    ensures r.Some? ==> |r.value| <= TEXT_LIMIT
    ensures |Trim(textContent)| <= TEXT_LIMIT && r.Some? ==> r.value == Trim(textContent)
    ensures |Trim(textContent)| > TEXT_LIMIT ==>
      r.Some? && |r.value| == TEXT_LIMIT
      && r.value[..TEXT_KEEP] == Trim(textContent)[..TEXT_KEEP]
      && r.value[TEXT_KEEP..] == ELLIPSIS
  {
    var text := Trim(textContent);
    if |text| > TEXT_LIMIT then Some(text[..TEXT_KEEP] + ELLIPSIS) else OrNull(text)
  }

  /** `getElementInfo`: a value snapshot of an element. */
  function GetElementInfo(e: Element): ElementInfo {
    ElementInfo(e.tagName, OrNull(e.id), OrNull(e.className), SnapshotText(e.textContent), e.rect)
  }

  /** `element ? getElementInfo(element) : null`. */
  function InfoOf(e: Option<Element>): Option<ElementInfo> {
    if e.Some? then Some(GetElementInfo(e.value)) else None
  }

  /** The box has an area and its top-left corner lies before the viewport's far edges. */
  predicate IsVisible(r: Rect, vp: Viewport) {
    r.width > 0 && r.height > 0 && r.top < vp.height && r.left < vp.width
  }

  function VisibleEntry(e: Element): VisibleElement {
    VisibleElement(e.tagName, OrNull(e.id), OrNull(e.className), e.rect)
  }

  /** The visible-element list of a document, as a specification. */
  function VisibleSnapshots(all: seq<Element>, vp: Viewport): (r: seq<VisibleElement>)
    ensures |r| <= |all|
    ensures forall k :: 0 <= k < |r| ==> IsVisible(r[k].position, vp)
  {
    if all == [] then []
    else
      var last := all[|all| - 1];
      VisibleSnapshots(all[..|all| - 1], vp) + (if IsVisible(last.rect, vp) then [VisibleEntry(last)] else [])
  }

  /** The list of two stretches of a document is the two lists in document order. */
  lemma {:induction false} VisibleSnapshotsConcat(a: seq<Element>, b: seq<Element>, vp: Viewport)
    ensures VisibleSnapshots(a + b, vp) == VisibleSnapshots(a, vp) + VisibleSnapshots(b, vp)
    decreases |b|
  {
    if b != [] {
      var b' := b[..|b| - 1];
      assert (a + b)[..|a + b| - 1] == a + b';
      VisibleSnapshotsConcat(a, b', vp);
    } else {
      assert a + b == a;
    }
  }

  /** Every visible element of the document is listed. */
  lemma {:induction false} VisibleSnapshotsComplete(all: seq<Element>, vp: Viewport, i: int)
    requires 0 <= i < |all| && IsVisible(all[i].rect, vp)
    ensures VisibleEntry(all[i]) in VisibleSnapshots(all, vp)
    decreases |all|
  {
    if i < |all| - 1 {
      VisibleSnapshotsComplete(all[..|all| - 1], vp, i);
    }
  }

  /** Every listed entry is the entry of some visible element of the document. */
  lemma {:induction false} VisibleSnapshotsSound(all: seq<Element>, vp: Viewport, v: VisibleElement)
    requires v in VisibleSnapshots(all, vp)
    ensures exists i :: 0 <= i < |all| && IsVisible(all[i].rect, vp) && v == VisibleEntry(all[i])
    decreases |all|
  {
    var init := all[..|all| - 1];
    if v in VisibleSnapshots(init, vp) {
      VisibleSnapshotsSound(init, vp, v);
      var i :| 0 <= i < |init| && IsVisible(init[i].rect, vp) && v == VisibleEntry(init[i]);
      assert all[i] == init[i];
    } else {
      assert IsVisible(all[|all| - 1].rect, vp) && v == VisibleEntry(all[|all| - 1]);
    }
  }

  /** `getVisibleElements`: scan the document and push each visible element's entry. */
  method GetVisibleElements(all: seq<Element>, vp: Viewport) returns (elements: seq<VisibleElement>)
    ensures elements == VisibleSnapshots(all, vp)
  {
    elements := [];
    for i := 0 to |all|
      invariant elements == VisibleSnapshots(all[..i], vp)
    {
      var el := all[i];
      var rect := el.rect;
      if rect.width > 0 && rect.height > 0 && rect.top < vp.height && rect.left < vp.width {
        elements := elements + [VisibleElement(el.tagName, OrNull(el.id), OrNull(el.className), rect)];
      }
      assert all[..i + 1][..i] == all[..i];
    }
    assert all[..|all|] == all;
  }
}
