/**
 * The capture agent of `public/script.js`: the module-level variables its
 * event handlers share, as the fields of one object, and one method per
 * handler. What the agent emits is appended to `sent`; the browser reads
 * (`window`, `document.activeElement`, `elementFromPoint`, the clock) are
 * parameters, and the idle timer firing is the explicit call `OnIdleTimer`.
 */
module Agent {
  import opened Wrappers
  import opened Dom
  import opened Protocol
  import opened CapturePolicy

  class Tracker {
    var lastElement: Option<ElementInfo>
    var lastActionTime: int
    var currentPage: string
    var lastScroll: Offset
    var keystrokeBuffer: string
    /** When the pending idle timer fires, if one is pending. */
    var idleDeadline: Option<int>
    var lastInputElement: Option<ElementInfo>
    /** Every `track_event` emitted so far, oldest first. */
    var sent: seq<Envelope>

    /** The throttle's state at start-up, every pointer move since, and the moves reported. */
    ghost var mouseStart: MouseState
    ghost var moves: seq<Move>
    ghost var reportedMoves: seq<Move>
    /** The same for scroll offsets, and for the paths seen on `popstate`. */
    ghost var scrollStart: Offset
    ghost var scrolls: seq<Offset>
    ghost var reportedScrolls: seq<Offset>
    ghost var pageStart: string
    ghost var paths: seq<string>
    ghost var reportedPaths: seq<string>

    /** The mouse throttle's memory. */
    function Mouse(): MouseState
      reads this
    {
      MouseState(lastElement, lastActionTime)
    }

    /**
     * The handlers' state is that of the capture policy run over everything
     * observed since start-up, and what they reported is what the policy reports.
     */
    ghost predicate Valid()
      reads this
    {
      MouseValid() && ScrollValid() && PageValid()
    }

    ghost predicate MouseValid()
      reads this`mouseStart, this`moves, this`lastElement, this`lastActionTime, this`reportedMoves
    {
      MouseRun(mouseStart, moves) == (MouseState(lastElement, lastActionTime), reportedMoves)
    }

    ghost predicate ScrollValid()
      reads this`scrollStart, this`scrolls, this`lastScroll, this`reportedScrolls
    {
      ChangeRun(scrollStart, scrolls) == (lastScroll, reportedScrolls)
    }

    ghost predicate PageValid()
      reads this`pageStart, this`paths, this`currentPage, this`reportedPaths
    {
      ChangeRun(pageStart, paths) == (currentPage, reportedPaths)
    }

    /**
     * Once the pointer's element has been reported, the reports made while the
     * pointer stays over it are more than ten seconds apart: `i` is the move
     * from which on the pointer hovers `e`.
     */
    lemma HoverReportsSpaced(i: nat, e: ElementInfo)
      requires MouseValid() && i <= |moves|
      requires MouseRun(mouseStart, moves[..i]).0.lastElement.Some?
      requires SameTarget(MouseRun(mouseStart, moves[..i]).0.lastElement.value, e)
      requires forall k :: i <= k < |moves| ==> moves[k].target.Some? && SameTarget(moves[k].target.value, e)
      ensures var r := MouseRun(mouseStart, moves[..i]);
        && |r.1| <= |reportedMoves|
        && reportedMoves[..|r.1|] == r.1
        && Spaced(r.0.lastActionTime, reportedMoves[|r.1|..])
    {
      var r := MouseRun(mouseStart, moves[..i]);
      var rest := moves[i..];
      assert moves[..i] + rest == moves;
      MouseRunConcat(mouseStart, moves[..i], rest);
      assert forall k :: 0 <= k < |rest| ==> rest[k] == moves[i + k];
      HoverHeartbeatSpacing(r.0, rest, e);
      var later := MouseRun(r.0, rest).1;
      assert reportedMoves == r.1 + later;
      assert reportedMoves[..|r.1|] == r.1 && reportedMoves[|r.1|..] == later;
    }

    /** No scroll offset and no path is reported twice in a row. */
    lemma ReportsChangeEachTime()
      requires ScrollValid() && PageValid()
      ensures NoRepeats(scrollStart, reportedScrolls)
      ensures NoRepeats(pageStart, reportedPaths)
    {
      ChangeRunNoRepeats(scrollStart, scrolls);
      ChangeRunNoRepeats(pageStart, paths);
    }

    /** Script start-up: the state is initialised and the first page view is sent. */
    constructor (win: Window, referrer: string, document: seq<Element>, now: int)
      ensures Mouse() == MouseState(None, now)
      ensures currentPage == win.pathname && lastScroll == win.scroll
      ensures keystrokeBuffer == "" && idleDeadline == None && lastInputElement == None
      ensures Valid() && moves == [] && scrolls == [] && paths == []
      ensures sent == [Envelope(PAGE_VIEW,
        Some(PageViewData(Some(referrer), win.href, VisibleSnapshots(document, win.viewport), win.viewport, Some(win.scroll))),
        Some(win.pathname))]
    {
      lastElement := None;
      currentPage := win.pathname;
      lastActionTime := now;
      var elements := GetVisibleElements(document, win.viewport);
      sent := [Envelope(PAGE_VIEW,
        Some(PageViewData(Some(referrer), win.href, elements, win.viewport, Some(win.scroll))),
        Some(currentPage))];
      lastScroll := win.scroll;
      keystrokeBuffer := "";
      idleDeadline := None;
      lastInputElement := None;
      mouseStart, moves, reportedMoves := MouseState(None, now), [], [];
      scrollStart, scrolls, reportedScrolls := win.scroll, [], [];
      pageStart, paths, reportedPaths := win.pathname, [], [];
    }

    /** `scroll`: report the offset only when it differs from the last one reported. */
    method OnScroll(win: Window)
      requires ScrollValid()
      modifies this`lastScroll, this`sent, this`scrolls, this`reportedScrolls
      ensures ScrollValid() && scrolls == old(scrolls) + [win.scroll]
      ensures win.scroll != old(lastScroll) ==>
        lastScroll == win.scroll
        && sent == old(sent) + [Envelope(SCROLL, Some(ScrollData(win.scroll)), Some(currentPage))]
      ensures win.scroll == old(lastScroll) ==> lastScroll == old(lastScroll) && sent == old(sent)
    {
      if win.scroll.x != lastScroll.x || win.scroll.y != lastScroll.y {
        lastScroll := win.scroll;
        sent := sent + [Envelope(SCROLL, Some(ScrollData(win.scroll)), Some(currentPage))];
      }
      ChangeRunSnoc(scrollStart, scrolls, win.scroll);
      reportedScrolls := ChangeRun(scrollStart, scrolls + [win.scroll]).1;
      scrolls := scrolls + [win.scroll];
    }

    /** `mousemove`: `hit` is the element under the pointer, if any. */
    method OnMouseMove(now: int, hit: Option<Element>, x: int, y: int, win: Window)
      requires MouseValid()
      modifies this`lastElement, this`lastActionTime, this`sent, this`moves, this`reportedMoves
      ensures MouseValid() && moves == old(moves) + [Move(now, InfoOf(hit))]
      ensures Mouse() == MouseStep(old(Mouse()), Move(now, InfoOf(hit)))
      ensures sent == old(sent) +
        if MouseEmits(old(Mouse()), Move(now, InfoOf(hit)))
        then [Envelope(MOUSE_MOVE,
          Some(MouseMoveData(x, y, InfoOf(hit).value, win.viewport, Some(win.scroll))),
          Some(currentPage))]
        else []
    {
      ghost var m := Move(now, InfoOf(hit));
      ghost var before := Mouse();
      MouseRunSnoc(mouseStart, moves, m);
      var elementInfo := if hit.Some? then Some(GetElementInfo(hit.value)) else None;
      if elementInfo.Some?
        && (now - lastActionTime > HEARTBEAT_MS
            || lastElement.None?
            || elementInfo.value.id != lastElement.value.id
            || elementInfo.value.tag != lastElement.value.tag)
      {
        assert MouseEmits(before, m);
        lastElement := elementInfo;
        lastActionTime := now;
        sent := sent + [Envelope(MOUSE_MOVE,
          Some(MouseMoveData(x, y, elementInfo.value, win.viewport, Some(win.scroll))),
          Some(currentPage))];
        reportedMoves := reportedMoves + [m];
      } else {
        assert !MouseEmits(before, m);
        assert reportedMoves + [] == reportedMoves;
      }
      moves := moves + [m];
    }

    /** `click`: always reported, with a snapshot of the target. */
    method OnClick(target: Element, x: int, y: int)
      modifies this`sent
      ensures sent == old(sent) + [Envelope(CLICK, Some(ClickData(GetElementInfo(target), x, y)), Some(currentPage))]
    {
      sent := sent + [Envelope(CLICK, Some(ClickData(GetElementInfo(target), x, y)), Some(currentPage))];
    }

    /** `visibilitychange`: `tab_hidden` when the page became hidden, `tab_visible` otherwise. */
    method OnVisibilityChange(hidden: bool)
      modifies this`sent
      ensures sent == old(sent) + [Envelope(if hidden then TAB_HIDDEN else TAB_VISIBLE, None, Some(currentPage))]
    {
      if hidden {
        sent := sent + [Envelope(TAB_HIDDEN, None, Some(currentPage))];
      } else {
        sent := sent + [Envelope(TAB_VISIBLE, None, Some(currentPage))];
      }
    }

    /** `beforeunload`: the page is being left. */
    method OnBeforeUnload()
      modifies this`sent
      ensures sent == old(sent) + [Envelope(PAGE_LEAVE, None, Some(currentPage))]
    {
      sent := sent + [Envelope(PAGE_LEAVE, None, Some(currentPage))];
    }

    /** `popstate`: a page view, without referrer, only when the path really changed. */
    method OnPopState(win: Window, document: seq<Element>)
      requires PageValid()
      modifies this`currentPage, this`sent, this`paths, this`reportedPaths
      ensures PageValid() && paths == old(paths) + [win.pathname]
      ensures win.pathname != old(currentPage) ==>
        currentPage == win.pathname
        && sent == old(sent) + [Envelope(PAGE_VIEW,
          Some(PageViewData(None, win.href, VisibleSnapshots(document, win.viewport), win.viewport, Some(win.scroll))),
          Some(win.pathname))]
      ensures win.pathname == old(currentPage) ==> currentPage == old(currentPage) && sent == old(sent)
    {
      if win.pathname != currentPage {
        currentPage := win.pathname;
        var elements := GetVisibleElements(document, win.viewport);
        sent := sent + [Envelope(PAGE_VIEW,
          Some(PageViewData(None, win.href, elements, win.viewport, Some(win.scroll))),
          Some(currentPage))];
      }
      ChangeRunSnoc(pageStart, paths, win.pathname);
      reportedPaths := ChangeRun(pageStart, paths + [win.pathname]).1;
      paths := paths + [win.pathname];
    }

    /**
     * `keydown`: when a text entry has focus, edit the buffer, remember the
     * entry and restart the idle timer; otherwise do nothing.
     */
    method OnKeyDown(active: Option<Element>, key: string, now: int)
      modifies this`keystrokeBuffer, this`lastInputElement, this`idleDeadline
      ensures IsTextEntry(active) ==>
        keystrokeBuffer == EditBuffer(old(keystrokeBuffer), key)
        && lastInputElement == Some(GetElementInfo(active.value))
        && idleDeadline == Some(now + IDLE_MS)
      ensures !IsTextEntry(active) ==>
        keystrokeBuffer == old(keystrokeBuffer)
        && lastInputElement == old(lastInputElement)
        && idleDeadline == old(idleDeadline)
    {
      if active.Some?
        && (active.value.tagName == "INPUT" || active.value.tagName == "TEXTAREA" || active.value.isContentEditable)
      {
        if |key| == 1 {
          keystrokeBuffer := keystrokeBuffer + key;
        } else if key == ENTER {
          keystrokeBuffer := keystrokeBuffer + "\n";
        } else if key == BACKSPACE {
          keystrokeBuffer := if keystrokeBuffer == "" then "" else keystrokeBuffer[..|keystrokeBuffer| - 1];
        }
        lastInputElement := Some(GetElementInfo(active.value));
        idleDeadline := Some(now + IDLE_MS);
      }
    }

    /**
     * The idle timer fires (four seconds after the last key in a text entry):
     * a non-empty buffer is sent once as a `keystroke` event and emptied; an
     * empty buffer sends nothing. The timer is then spent.
     */
    method OnIdleTimer(now: int)
      requires idleDeadline == Some(now)
      modifies this`keystrokeBuffer, this`idleDeadline, this`sent
      ensures keystrokeBuffer == "" && idleDeadline == None
      ensures sent == old(sent) +
        if old(keystrokeBuffer) != ""
        then [Envelope(KEYSTROKE, Some(KeystrokeData(old(keystrokeBuffer), lastInputElement)), Some(currentPage))]
        else []
    {
      if |keystrokeBuffer| > 0 {
        sent := sent + [Envelope(KEYSTROKE, Some(KeystrokeData(keystrokeBuffer, lastInputElement)), Some(currentPage))];
        keystrokeBuffer := "";
      }
      idleDeadline := None;
    }
  }
}
