/**
 * The `track_event` message the capture agent sends: `{type, data, page}`, with
 * one payload shape per event kind.
 */
module Protocol {
  import opened Wrappers
  import opened Dom

  /** The `data` of a tracked event; its shape depends on the event kind. */
  datatype Payload =
    | PageViewData(
        referrer: Option<string>,
        url: string,
        elements: seq<VisibleElement>,
        viewport: Viewport,
        scroll: Option<Offset>)
    | ScrollData(offset: Offset)
    | MouseMoveData(x: int, y: int, element: ElementInfo, viewport: Viewport, scroll: Option<Offset>)
    | ClickData(element: ElementInfo, x: int, y: int)
    | KeystrokeData(value: string, input: Option<ElementInfo>)

  /** The body of a `track_event` message; absent fields are `None`. */
  datatype Envelope = Envelope(kind: string, data: Option<Payload>, page: Option<string>)

  const PAGE_VIEW := "page_view"
  const SCROLL := "scroll"
  const MOUSE_MOVE := "mouse_move"
  const CLICK := "click"
  const TAB_HIDDEN := "tab_hidden"
  const TAB_VISIBLE := "tab_visible"
  const PAGE_LEAVE := "page_leave"
  const KEYSTROKE := "keystroke"
}
