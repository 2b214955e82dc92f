/**
 * The older capture agent, `script.js`: the same page-view, mouse, click,
 * visibility and unload handlers as `public/script.js`, without scroll and
 * keystroke tracking, and with payloads that carry no scroll offset.
 */
module LegacyAgent {
  import opened Wrappers
  import opened Dom
  import opened Protocol
  import opened CapturePolicy

  class LegacyTracker {
    var lastElement: Option<ElementInfo>
    var lastActionTime: int
    var currentPage: string
    /** Every `track_event` emitted so far, oldest first. */
    var sent: seq<Envelope>

    /** The throttle's state at start-up, every pointer move since, and the moves reported. */
    ghost var mouseStart: MouseState
    ghost var moves: seq<Move>
    ghost var reportedMoves: seq<Move>
    /** The path at start-up, the paths seen on `popstate` since, and those reported. */
    ghost var pageStart: string
    ghost var paths: seq<string>
    ghost var reportedPaths: seq<string>

    /** The mouse throttle's memory. */
    function Mouse(): MouseState
      reads this
    {
      MouseState(lastElement, lastActionTime)
    }

    /** The handlers' state and reports are those of the capture policy run over what was observed. */
    ghost predicate Valid()
      reads this
    {
      MouseValid() && PageValid()
    }

    ghost predicate MouseValid()
      reads this`mouseStart, this`moves, this`lastElement, this`lastActionTime, this`reportedMoves
    {
      MouseRun(mouseStart, moves) == (MouseState(lastElement, lastActionTime), reportedMoves)
    }

    ghost predicate PageValid()
      reads this`pageStart, this`paths, this`currentPage, this`reportedPaths
    {
      ChangeRun(pageStart, paths) == (currentPage, reportedPaths)
    }

    /** Script start-up: the state is initialised and the first page view is sent. */
    constructor (win: Window, referrer: string, document: seq<Element>, now: int)
      ensures Mouse() == MouseState(None, now) && currentPage == win.pathname
      ensures Valid() && moves == [] && paths == []
      ensures sent == [Envelope(PAGE_VIEW,
        Some(PageViewData(Some(referrer), win.href, VisibleSnapshots(document, win.viewport), win.viewport, None)),
        Some(win.pathname))]
    {
      lastElement := None;
      currentPage := win.pathname;
      lastActionTime := now;
      var elements := GetVisibleElements(document, win.viewport);
      sent := [Envelope(PAGE_VIEW,
        Some(PageViewData(Some(referrer), win.href, elements, win.viewport, None)),
        Some(currentPage))];
      mouseStart, moves, reportedMoves := MouseState(None, now), [], [];
      pageStart, paths, reportedPaths := win.pathname, [], [];
    }

    /** `mousemove`: the same throttle as the newer agent. */
    method OnMouseMove(now: int, hit: Option<Element>, x: int, y: int, win: Window)
      requires MouseValid()
      modifies this`lastElement, this`lastActionTime, this`sent, this`moves, this`reportedMoves
      ensures MouseValid() && moves == old(moves) + [Move(now, InfoOf(hit))]
      ensures Mouse() == MouseStep(old(Mouse()), Move(now, InfoOf(hit)))
      ensures sent == old(sent) +
        if MouseEmits(old(Mouse()), Move(now, InfoOf(hit)))
        then [Envelope(MOUSE_MOVE, Some(MouseMoveData(x, y, InfoOf(hit).value, win.viewport, None)), Some(currentPage))]
        else []
    {
      ghost var m := Move(now, InfoOf(hit));
      ghost var before := Mouse();
      MouseRunSnoc(mouseStart, moves, m);
      var elementInfo := if hit.Some? then Some(GetElementInfo(hit.value)) else None;
      if elementInfo.Some?
        && (now - lastActionTime > HEARTBEAT_MS
            || lastElement.None?
            || elementInfo.value.id != lastElement.value.id
            || elementInfo.value.tag != lastElement.value.tag)
      {
        assert MouseEmits(before, m);
        lastElement := elementInfo;
        lastActionTime := now;
        sent := sent + [Envelope(MOUSE_MOVE, Some(MouseMoveData(x, y, elementInfo.value, win.viewport, None)), Some(currentPage))];
        reportedMoves := reportedMoves + [m];
      } else {
        assert !MouseEmits(before, m);
        assert reportedMoves + [] == reportedMoves;
      }
      moves := moves + [m];
    }

    /** `click`: always reported, with a snapshot of the target. */
    method OnClick(target: Element, x: int, y: int)
      modifies this`sent
      ensures sent == old(sent) + [Envelope(CLICK, Some(ClickData(GetElementInfo(target), x, y)), Some(currentPage))]
    {
      sent := sent + [Envelope(CLICK, Some(ClickData(GetElementInfo(target), x, y)), Some(currentPage))];
    }

    /** `visibilitychange`: `tab_hidden` when the page became hidden, `tab_visible` otherwise. */
    method OnVisibilityChange(hidden: bool)
      modifies this`sent
      ensures sent == old(sent) + [Envelope(if hidden then TAB_HIDDEN else TAB_VISIBLE, None, Some(currentPage))]
    {
      if hidden {
        sent := sent + [Envelope(TAB_HIDDEN, None, Some(currentPage))];
      } else {
        sent := sent + [Envelope(TAB_VISIBLE, None, Some(currentPage))];
      }
    }

    /** `beforeunload`: the page is being left. */
    method OnBeforeUnload()
      modifies this`sent
      ensures sent == old(sent) + [Envelope(PAGE_LEAVE, None, Some(currentPage))]
    {
      sent := sent + [Envelope(PAGE_LEAVE, None, Some(currentPage))];
    }

    /** `popstate`: a page view only when the path really changed. */
    method OnPopState(win: Window, document: seq<Element>)
      requires PageValid()
      modifies this`currentPage, this`sent, this`paths, this`reportedPaths
      ensures PageValid() && paths == old(paths) + [win.pathname]
      ensures win.pathname != old(currentPage) ==>
        currentPage == win.pathname
        && sent == old(sent) + [Envelope(PAGE_VIEW,
          Some(PageViewData(None, win.href, VisibleSnapshots(document, win.viewport), win.viewport, None)),
          Some(win.pathname))]
      ensures win.pathname == old(currentPage) ==> currentPage == old(currentPage) && sent == old(sent)
    {
      if win.pathname != currentPage {
        currentPage := win.pathname;
        var elements := GetVisibleElements(document, win.viewport);
        sent := sent + [Envelope(PAGE_VIEW,
          Some(PageViewData(None, win.href, elements, win.viewport, None)),
          Some(currentPage))];
      }
      ChangeRunSnoc(pageStart, paths, win.pathname);
      reportedPaths := ChangeRun(pageStart, paths + [win.pathname]).1;
      paths := paths + [win.pathname];
    }
  }
}
