/** The menu buttons: which action a click leads to, given whether the
    article preview (iframe) or the configuration panel is showing. */
module Menu {
  import opened Common
  import opened Feed

  /** What a button click does: a feed request with `getData`'s three
      options, opening the configuration panel, sharing or closing the
      preview, or nothing. */
  datatype Command =
    | Fetch(backFrom: string, sendCurrentsAsReaded: bool, useCache: bool)
    | ShowConfig
    | SharePreview
    | ClosePreview
    | Ignore

  /** `menuButton`. "back" pages back from the last item marked read; when
      none was marked the cursor is null. A null cursor is falsy, so `getData`
      neither reverses the items nor throws on null data, as with the empty
      cursor; only the request URL differs (it then holds "null"), and the URL
      is not modelled, so null is passed on as "". "more" asks to send the
      current items as read. */
  function MenuCommand(action: string, iframeVisible: bool, configVisible: bool, lastReaded: Option<ItemId>): (r: Command)
    ensures action in {"back", "more", "config"} ==> (r.Ignore? <==> iframeVisible || configVisible)
    ensures action == "back" && r != Ignore ==> r == Fetch(lastReaded.GetOr(""), false, false)
    ensures action == "more" && r != Ignore ==> r == Fetch("", true, false)
    ensures action == "config" && r != Ignore ==> r == ShowConfig
    ensures action == "share" <==> r == SharePreview
    ensures action == "close" <==> r == ClosePreview
    ensures action !in {"back", "more", "config", "share", "close"} ==> r == Ignore
    ensures r.Fetch? ==> !r.useCache
  {
    var free := !iframeVisible && !configVisible;
    if action == "back" && free then Fetch(lastReaded.GetOr(""), false, false)
    else if action == "more" && free then Fetch("", true, false)
    else if action == "config" && free then ShowConfig
    else if action == "share" then SharePreview
    else if action == "close" then ClosePreview
    else Ignore
  }
}
